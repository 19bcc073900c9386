// Whole histories of index operations: the tree answers like a map, its size field counts the map,
// and its height stays logarithmic in the number of successful inserts.
module BTreeHistory {
  import opened BTreeModel
  import opened Common

  /** What struct btree holds: the root, the height the root implies, and the 32-bit pair counter. */
  datatype Index = Index(root: Tree, height: nat, size: int)

  const EmptyIndex := Index(Leaf([], []), 0, 0)

  ghost predicate ValidIndex(ix: Index, order: nat) {
    && order >= 3
    && Valid(ix.root, 0, KEY_LIMIT, ix.height, order)
    && ix.size == |Entries(ix.root)| % KEY_LIMIT
  }

  /** btree_insert: a split root gets a new root above it. */
  function InsertRoot(ix: Index, k: Key, v: RecordPtr, order: nat): Option<Index>
    requires Shaped(ix.root, ix.height, order) && order >= 3
  {
    GrowRoot(ix, Insert(ix.root, k, v, ix.height, order))
  }

  function GrowRoot(ix: Index, r: InsertResult): Option<Index> {
    match r
    case Duplicate => None
    case Done(t) => Some(Index(t, ix.height, (ix.size + 1) % KEY_LIMIT))
    case Split(l, p, q) => Some(Index(Inner([p], [l, q]), ix.height + 1, (ix.size + 1) % KEY_LIMIT))
  }

  function DeleteRoot(ix: Index, k: Key, order: nat): Option<Index>
    requires Shaped(ix.root, ix.height, order)
  {
    if Lookup(ix.root, k, ix.height, order).None? then None
    else Some(Index(Delete(ix.root, k, ix.height, order), ix.height, (ix.size - 1) % KEY_LIMIT))
  }

  function UpdateRoot(ix: Index, k: Key, v: RecordPtr, order: nat): Option<Index>
    requires Shaped(ix.root, ix.height, order)
  {
    if Lookup(ix.root, k, ix.height, order).None? then None
    else Some(ix.(root := Update(ix.root, k, v, ix.height, order)))
  }

  /** The first `max` values, in key order, of the pairs with low <= key <= high. */
  ghost function InRange(es: seq<Entry>, low: Key, high: Key, max: nat): seq<RecordPtr>
    decreases |es|
  {
    if es == [] || max == 0 then []
    else if low <= es[0].0 <= high then [es[0].1] + InRange(es[1..], low, high, max - 1)
    else InRange(es[1..], low, high, max)
  }

  // ---------------------------------------------------------------------------
  // The map view
  // ---------------------------------------------------------------------------

  ghost predicate Pairs(es: seq<Entry>, m: map<Key, RecordPtr>) {
    && (forall i :: 0 <= i < |es| ==> es[i].0 in m && m[es[i].0] == es[i].1)
    && (forall k :: k in m ==> HasKey(es, k))
    && |es| == |m|
  }

  lemma {:induction false} SortedPairs(es: seq<Entry>)
    requires SortedEntries(es)
    ensures Pairs(es, ToMap(es))
    decreases |es|
  {
    if es != [] {
      var rest := es[1..];
      SortedPairs(rest);
      assert SortedEntries(rest);
      assert forall i :: 0 < i < |es| ==> es[i] == rest[i - 1];
      forall k | k in ToMap(es) ensures HasKey(es, k) {
        if k == es[0].0 {
        } else {
          var i :| 0 <= i < |rest| && rest[i].0 == k;
          assert es[i + 1].0 == k;
        }
      }
      assert es[0].0 !in ToMap(rest);
    }
  }

  lemma FindPairs(es: seq<Entry>, k: Key)
    requires SortedEntries(es)
    ensures var m := ToMap(es); Find(es, k) == if k in m then Some(m[k]) else None
    ensures HasKey(es, k) <==> k in ToMap(es)
  {
    SortedPairs(es);
    var p := Rank(es, k);
    if p < |es| {
      assert forall j :: p < j < |es| ==> es[p].0 < es[j].0;
    }
  }

  lemma PairsDetermine(es: seq<Entry>, m: map<Key, RecordPtr>)
    requires SortedEntries(es)
    requires forall i :: 0 <= i < |es| ==> es[i].0 in m && m[es[i].0] == es[i].1
    requires forall k :: k in m ==> HasKey(es, k)
    ensures ToMap(es) == m
  {
    SortedPairs(es);
    forall k | k in m ensures k in ToMap(es) && ToMap(es)[k] == m[k] {
      var i :| 0 <= i < |es| && es[i].0 == k;
    }
    forall k | k in ToMap(es) ensures k in m {
      var i :| 0 <= i < |es| && es[i].0 == k;
    }
  }

  lemma RankSides(es: seq<Entry>, k: Key, i: nat)
    requires SortedEntries(es) && !HasKey(es, k) && i < |es|
    ensures if i < Rank(es, k) then es[i].0 < k else k < es[i].0
  {
    var p := Rank(es, k);
    assert es[i].0 != k;
    assert p < i ==> es[p].0 < es[i].0;
  }

  lemma InsertSortedSorted(es: seq<Entry>, k: Key, v: RecordPtr)
    requires SortedEntries(es) && !HasKey(es, k)
    ensures SortedEntries(InsertSorted(es, k, v))
  {
    var p, r := Rank(es, k), InsertSorted(es, k, v);
    forall i, j | 0 <= i < j < |r| ensures r[i].0 < r[j].0 {
      InsertAtPoint(es, p, (k, v), i);
      InsertAtPoint(es, p, (k, v), j);
      if i != p {
        RankSides(es, k, if i < p then i else i - 1);
      }
      if j != p {
        RankSides(es, k, if j < p then j else j - 1);
      }
    }
  }

  lemma InsertedKey(es: seq<Entry>, k: Key, v: RecordPtr, x: Key)
    requires x == k || HasKey(es, x)
    ensures HasKey(InsertSorted(es, k, v), x)
  {
    var p, r := Rank(es, k), InsertSorted(es, k, v);
    InsertAtPoint(es, p, (k, v), p);
    if x != k {
      var i :| 0 <= i < |es| && es[i].0 == x;
      InsertAtPoint(es, p, (k, v), if i < p then i else i + 1);
      assert r[if i < p then i else i + 1] == es[i];
    }
  }

  lemma InsertedValue(es: seq<Entry>, k: Key, v: RecordPtr, j: nat)
    requires SortedEntries(es) && !HasKey(es, k) && j < |InsertSorted(es, k, v)|
    ensures var e, m := InsertSorted(es, k, v)[j], ToMap(es)[k := v]; e.0 in m && m[e.0] == e.1
  {
    SortedPairs(es);
    var p := Rank(es, k);
    InsertAtPoint(es, p, (k, v), j);
    if j != p {
      var e := es[if j < p then j else j - 1];
      assert e in es && e.0 != k;
    }
  }

  lemma InsertPairs(es: seq<Entry>, k: Key, v: RecordPtr)
    requires SortedEntries(es) && !HasKey(es, k)
    ensures SortedEntries(InsertSorted(es, k, v))
    ensures ToMap(InsertSorted(es, k, v)) == ToMap(es)[k := v]
  {
    var r, m := InsertSorted(es, k, v), ToMap(es)[k := v];
    InsertSortedSorted(es, k, v);
    forall x | x in m ensures HasKey(r, x) {
      FindPairs(es, x);
      InsertedKey(es, k, v, x);
    }
    forall j | 0 <= j < |r| ensures r[j].0 in m && m[r[j].0] == r[j].1 {
      InsertedValue(es, k, v, j);
    }
    PairsDetermine(r, m);
  }

  lemma RemovePoints(es: seq<Entry>, k: Key)
    requires SortedEntries(es) && Find(es, k).Some?
    ensures SortedEntries(RemoveKey(es, k))
    ensures var r, p := RemoveKey(es, k), Rank(es, k);
            |r| == |es| - 1 && p < |es| && es[p].0 == k
            && forall j :: 0 <= j < |r| ==> r[j] == if j < p then es[j] else es[j + 1]
  {
  }

  lemma RemovePairs(es: seq<Entry>, k: Key)
    requires SortedEntries(es) && Find(es, k).Some?
    ensures SortedEntries(RemoveKey(es, k))
    ensures ToMap(RemoveKey(es, k)) == ToMap(es) - {k}
  {
    RemovePoints(es, k);
    SortedPairs(es);
    RemoveKeeps(es, k);
    PairsDetermine(RemoveKey(es, k), ToMap(es) - {k});
  }

  lemma RemoveKeeps(es: seq<Entry>, k: Key)
    requires SortedEntries(es) && Find(es, k).Some?
    ensures var r := RemoveKey(es, k); forall j :: 0 <= j < |r| ==> r[j] in es && r[j].0 != k
    ensures forall x :: HasKey(es, x) && x != k ==> HasKey(RemoveKey(es, k), x)
  {
    RemovePoints(es, k);
    var p, r := Rank(es, k), RemoveKey(es, k);
    forall x | HasKey(es, x) && x != k ensures HasKey(r, x) {
      var i :| 0 <= i < |es| && es[i].0 == x;
      assert r[if i < p then i else i - 1] == es[i];
    }
    forall j | 0 <= j < |r| ensures r[j] in es && r[j].0 != k {
      assert r[j] == es[if j < p then j else j + 1];
    }
  }

  lemma SetPairs(es: seq<Entry>, k: Key, v: RecordPtr)
    requires SortedEntries(es) && Find(es, k).Some?
    ensures SortedEntries(SetKey(es, k, v))
    ensures ToMap(SetKey(es, k, v)) == ToMap(es)[k := v]
  {
    SortedPairs(es);
    var p := Rank(es, k);
    var r := SetKey(es, k, v);
    assert es[p].0 == k;
    forall x | x in ToMap(es)[k := v] ensures HasKey(r, x) {
      if x == k {
        assert r[p].0 == k;
      } else {
        var i :| 0 <= i < |es| && es[i].0 == x;
        assert r[i].0 == x;
      }
    }
    PairsDetermine(r, ToMap(es)[k := v]);
  }

  /** `vs` are the values of the `max` smallest keys `ks` with low <= k <= high, in ascending order; of all of them when there
      are no more than `max`. */
  ghost predicate FirstInRange(m: map<Key, RecordPtr>, low: Key, high: Key, max: nat, ks: seq<Key>, vs: seq<RecordPtr>) {
    && |ks| == |vs| <= max
    && (forall i, j :: 0 <= i < j < |ks| ==> ks[i] < ks[j])
    && (forall i :: 0 <= i < |ks| ==> low <= ks[i] <= high && ks[i] in m && m[ks[i]] == vs[i])
    && (forall k :: k in m && low <= k <= high && k !in ks ==> |ks| == max && forall i :: 0 <= i < |ks| ==> ks[i] < k)
  }

  ghost predicate ListsRange(m: map<Key, RecordPtr>, low: Key, high: Key, max: nat, vs: seq<RecordPtr>) {
    exists ks :: FirstInRange(m, low, high, max, ks, vs)
  }

  /** The same of a sorted list of pairs. */
  ghost predicate FirstListed(es: seq<Entry>, low: Key, high: Key, max: nat, ks: seq<Key>, vs: seq<RecordPtr>) {
    && |ks| == |vs| <= max
    && (forall i, j :: 0 <= i < j < |ks| ==> ks[i] < ks[j])
    && (forall i :: 0 <= i < |ks| ==> low <= ks[i] <= high && (ks[i], vs[i]) in es)
    && (forall e :: e in es && low <= e.0 <= high && e.0 !in ks ==> |ks| == max && forall i :: 0 <= i < |ks| ==> ks[i] < e.0)
  }

  lemma HeadFirst(es: seq<Entry>)
    requires SortedEntries(es) && es != []
    ensures forall e :: e in es[1..] ==> es[0].0 < e.0 && e in es
    ensures forall e :: e in es ==> e == es[0] || e in es[1..]
    ensures SortedEntries(es[1..]) && es[0] in es
  {
  }

  lemma ConsRises(k: Key, ks: seq<Key>)
    requires forall i, j :: 0 <= i < j < |ks| ==> ks[i] < ks[j]
    requires forall i :: 0 <= i < |ks| ==> k < ks[i]
    ensures forall i, j :: 0 <= i < j < |ks| + 1 ==> ([k] + ks)[i] < ([k] + ks)[j]
  {
  }

  lemma HeadListed(es: seq<Entry>, low: Key, high: Key, max: nat, ks: seq<Key>, vs: seq<RecordPtr>)
    requires SortedEntries(es) && es != [] && max > 0 && low <= es[0].0 <= high
    requires FirstListed(es[1..], low, high, max - 1, ks, vs)
    ensures FirstListed(es, low, high, max, [es[0].0] + ks, [es[0].1] + vs) == true
  {
    HeadFirst(es);
    var ks', vs' := [es[0].0] + ks, [es[0].1] + vs;
    forall i | 0 <= i < |ks| ensures es[0].0 < ks[i] {
      assert (ks[i], vs[i]) in es[1..];
    }
    ConsRises(es[0].0, ks);
    forall i | 0 <= i < |ks'| ensures low <= ks'[i] <= high && (ks'[i], vs'[i]) in es {
      if i > 0 {
        assert (ks[i - 1], vs[i - 1]) in es[1..];
      }
    }
    forall e | e in es && low <= e.0 <= high && e.0 !in ks' ensures |ks'| == max && forall i :: 0 <= i < |ks'| ==> ks'[i] < e.0 {
      LeftOut(es[0], es[1..], low, high, max, ks, vs, e);
    }
  }

  lemma LeftOut(head: Entry, rest: seq<Entry>, low: Key, high: Key, max: nat, ks: seq<Key>, vs: seq<RecordPtr>, e: Entry)
    requires max > 0 && FirstListed(rest, low, high, max - 1, ks, vs)
    requires (e == head || e in rest) && low <= e.0 <= high && e.0 !in [head.0] + ks
    requires e in rest ==> head.0 < e.0
    ensures |[head.0] + ks| == max && forall i :: 0 <= i < |[head.0] + ks| ==> ([head.0] + ks)[i] < e.0
  {
    assert ([head.0] + ks)[0] == head.0;
    forall i | 0 <= i < |ks| ensures ks[i] != e.0 {
      assert ([head.0] + ks)[i + 1] == ks[i];
    }
    assert e in rest && e.0 !in ks;
  }

  lemma HeadSkipped(es: seq<Entry>, low: Key, high: Key, max: nat, ks: seq<Key>, vs: seq<RecordPtr>)
    requires SortedEntries(es) && es != [] && !(low <= es[0].0 <= high) && FirstListed(es[1..], low, high, max, ks, vs)
    ensures FirstListed(es, low, high, max, ks, vs) == true
  {
    HeadFirst(es);
  }

  lemma ListedInMap(es: seq<Entry>, low: Key, high: Key, max: nat, ks: seq<Key>, vs: seq<RecordPtr>)
    requires SortedEntries(es) && FirstListed(es, low, high, max, ks, vs)
    ensures FirstInRange(ToMap(es), low, high, max, ks, vs) == true
  {
    SortedPairs(es);
    forall k | k in ToMap(es) ensures (k, ToMap(es)[k]) in es {
      var i :| 0 <= i < |es| && es[i].0 == k;
    }
  }

  lemma {:induction false} RangeKeys(es: seq<Entry>, low: Key, high: Key, max: nat) returns (ks: seq<Key>)
    requires SortedEntries(es)
    ensures FirstListed(es, low, high, max, ks, InRange(es, low, high, max)) == true
    decreases |es|
  {
    if es == [] || max == 0 {
      ks := [];
    } else {
      HeadFirst(es);
      if low <= es[0].0 <= high {
        ks := RangeKeys(es[1..], low, high, max - 1);
        HeadListed(es, low, high, max, ks, InRange(es[1..], low, high, max - 1));
        ks := [es[0].0] + ks;
      } else {
        ks := RangeKeys(es[1..], low, high, max);
        HeadSkipped(es, low, high, max, ks, InRange(es[1..], low, high, max));
      }
    }
  }

  // ---------------------------------------------------------------------------
  // One operation at the root
  // ---------------------------------------------------------------------------

  ghost function Contents(ix: Index): map<Key, RecordPtr> {
    ToMap(Entries(ix.root))
  }

  ghost predicate InKeyRange(k: Key) {
    0 <= k < KEY_LIMIT
  }

  lemma InsertRootSound(ix: Index, k: Key, v: RecordPtr, order: nat)
    requires ValidIndex(ix, order) && InKeyRange(k)
    ensures var r := InsertRoot(ix, k, v, order);
            && (r.None? <==> k in Contents(ix))
            && (r.Some? ==> ValidIndex(r.value, order) && Contents(r.value) == Contents(ix)[k := v])
  {
    InsertSound(ix.root, k, v, 0, KEY_LIMIT, ix.height, order);
    var es := Entries(ix.root);
    EntriesSorted(ix.root, 0, KEY_LIMIT);
    FindPairs(es, k);
    var r := Insert(ix.root, k, v, ix.height, order);
    if !r.Duplicate? {
      InsertPairs(es, k, v);
      GrowRootSound(ix, r, InsertSorted(es, k, v), order);
    }
  }

  lemma GrowRootSound(ix: Index, r: InsertResult, es: seq<Entry>, order: nat)
    requires ValidIndex(ix, order) && |es| == |Entries(ix.root)| + 1
    requires match r
             case Duplicate => false
             case Done(t) => Valid(t, 0, KEY_LIMIT, ix.height, order) && Entries(t) == es
             case Split(l, p, q) =>
               0 < p < KEY_LIMIT && Valid(l, 0, p, ix.height, order) && Valid(q, p, KEY_LIMIT, ix.height, order)
               && Entries(l) + Entries(q) == es
    ensures GrowRoot(ix, r).Some? && ValidIndex(GrowRoot(ix, r).value, order)
    ensures Entries(GrowRoot(ix, r).value.root) == es
  {
    if r.Split? {
      NewRootSound(r.left, r.promoted, r.right, ix.height, order);
    }
    CountUp(ix.size, |es| - 1);
  }

  /** Counting up or down in 32 bits agrees with counting and then wrapping. */
  lemma CountUp(size: int, n: nat)
    requires size == n % KEY_LIMIT
    ensures (size + 1) % KEY_LIMIT == (n + 1) % KEY_LIMIT
    ensures n > 0 ==> (size - 1) % KEY_LIMIT == (n - 1) % KEY_LIMIT
  {
  }

  lemma NewRootSound(l: Tree, p: Key, q: Tree, h: nat, order: nat)
    requires 0 < p < KEY_LIMIT && order >= 3
    requires Valid(l, 0, p, h, order) && Valid(q, p, KEY_LIMIT, h, order)
    ensures Valid(Inner([p], [l, q]), 0, KEY_LIMIT, h + 1, order)
    ensures Entries(Inner([p], [l, q])) == Entries(l) + Entries(q)
  {
    FlatTwo(l, q);
  }

  lemma DeleteRootSound(ix: Index, k: Key, order: nat)
    requires ValidIndex(ix, order) && InKeyRange(k)
    ensures var r := DeleteRoot(ix, k, order);
            && (r.None? <==> k !in Contents(ix))
            && (r.Some? ==> ValidIndex(r.value, order) && Contents(r.value) == Contents(ix) - {k})
  {
    LookupSound(ix.root, k, 0, KEY_LIMIT, ix.height, order);
    DeleteSound(ix.root, k, 0, KEY_LIMIT, ix.height, order);
    var es := Entries(ix.root);
    EntriesSorted(ix.root, 0, KEY_LIMIT);
    FindPairs(es, k);
    if Find(es, k).Some? {
      RemovePairs(es, k);
      CountUp(ix.size, |es|);
    }
  }

  lemma UpdateRootSound(ix: Index, k: Key, v: RecordPtr, order: nat)
    requires ValidIndex(ix, order) && InKeyRange(k)
    ensures var r := UpdateRoot(ix, k, v, order);
            && (r.None? <==> k !in Contents(ix))
            && (r.Some? ==> ValidIndex(r.value, order) && Contents(r.value) == Contents(ix)[k := v])
  {
    LookupSound(ix.root, k, 0, KEY_LIMIT, ix.height, order);
    UpdateSound(ix.root, k, v, 0, KEY_LIMIT, ix.height, order);
    var es := Entries(ix.root);
    EntriesSorted(ix.root, 0, KEY_LIMIT);
    FindPairs(es, k);
    if Find(es, k).Some? {
      SetPairs(es, k, v);
    }
  }

  lemma SearchRootSound(ix: Index, k: Key, order: nat)
    requires ValidIndex(ix, order) && InKeyRange(k)
    ensures var m := Contents(ix);
            Lookup(ix.root, k, ix.height, order) == if k in m then Some(m[k]) else None
  {
    LookupSound(ix.root, k, 0, KEY_LIMIT, ix.height, order);
    EntriesSorted(ix.root, 0, KEY_LIMIT);
    FindPairs(Entries(ix.root), k);
  }

  /** A range scan of a valid index lists what the definition of a range scan on a map says. */
  lemma RangeMeans(ix: Index, low: Key, high: Key, max: nat, order: nat) returns (ks: seq<Key>)
    requires ValidIndex(ix, order)
    ensures FirstInRange(Contents(ix), low, high, max, ks, InRange(Entries(ix.root), low, high, max))
  {
    var es := Entries(ix.root);
    EntriesSorted(ix.root, 0, KEY_LIMIT);
    ks := RangeKeys(es, low, high, max);
    ListedInMap(es, low, high, max, ks, InRange(es, low, high, max));
  }

  // ---------------------------------------------------------------------------
  // Histories
  // ---------------------------------------------------------------------------

  datatype Op =
    | InsertOp(key: Key, val: RecordPtr)
    | DeleteOp(key: Key)
    | UpdateOp(key: Key, val: RecordPtr)
    | SearchOp(key: Key)

  datatype Reply = Ok | Failed | Found(val: RecordPtr)

  function TreeStep(ix: Index, op: Op, order: nat): (Index, Reply)
    requires Shaped(ix.root, ix.height, order) && order >= 3
  {
    match op
    case InsertOp(k, v) => (match InsertRoot(ix, k, v, order) case None => (ix, Failed) case Some(ix') => (ix', Ok))
    case DeleteOp(k) => (match DeleteRoot(ix, k, order) case None => (ix, Failed) case Some(ix') => (ix', Ok))
    case UpdateOp(k, v) => (match UpdateRoot(ix, k, v, order) case None => (ix, Failed) case Some(ix') => (ix', Ok))
    case SearchOp(k) => (match Lookup(ix.root, k, ix.height, order) case None => (ix, Failed) case Some(v) => (ix, Found(v)))
  }

  ghost function MapStep(m: map<Key, RecordPtr>, op: Op): (map<Key, RecordPtr>, Reply) {
    match op
    case InsertOp(k, v) => if k in m then (m, Failed) else (m[k := v], Ok)
    case DeleteOp(k) => if k in m then (m - {k}, Ok) else (m, Failed)
    case UpdateOp(k, v) => if k in m then (m[k := v], Ok) else (m, Failed)
    case SearchOp(k) => if k in m then (m, Found(m[k])) else (m, Failed)
  }

  lemma StepRefines(ix: Index, op: Op, order: nat)
    requires ValidIndex(ix, order) && InKeyRange(op.key)
    ensures var (ix', reply) := TreeStep(ix, op, order);
            ValidIndex(ix', order) && (Contents(ix'), reply) == MapStep(Contents(ix), op)
  {
    match op
    case InsertOp(k, v) => InsertRootSound(ix, k, v, order);
    case DeleteOp(k) => DeleteRootSound(ix, k, order);
    case UpdateOp(k, v) => UpdateRootSound(ix, k, v, order);
    case SearchOp(k) => SearchRootSound(ix, k, order);
  }

  ghost predicate InKeyRanges(ops: seq<Op>) {
    forall i :: 0 <= i < |ops| ==> InKeyRange(ops[i].key)
  }

  /** Runs a whole history; `ix` carries its validity so that the run is defined. */
  ghost function TreeRun(ix: Index, ops: seq<Op>, order: nat): (Index, seq<Reply>)
    requires ValidIndex(ix, order) && InKeyRanges(ops)
    decreases |ops|
  {
    if ops == [] then (ix, []) else
      StepRefines(ix, ops[0], order);
      var (ix', reply) := TreeStep(ix, ops[0], order);
      var (ix'', replies) := TreeRun(ix', ops[1..], order);
      (ix'', [reply] + replies)
  }

  ghost function MapRun(m: map<Key, RecordPtr>, ops: seq<Op>): (map<Key, RecordPtr>, seq<Reply>)
    decreases |ops|
  {
    if ops == [] then (m, []) else
      var (m', reply) := MapStep(m, ops[0]);
      var (m'', replies) := MapRun(m', ops[1..]);
      (m'', [reply] + replies)
  }

  /** Every history gives the replies and contents of a plain map, and `size` counts its pairs modulo 2^32. */
  lemma {:induction false} RunRefines(ix: Index, ops: seq<Op>, order: nat)
    requires ValidIndex(ix, order) && InKeyRanges(ops)
    ensures var (ix', replies) := TreeRun(ix, ops, order);
            && ValidIndex(ix', order)
            && (Contents(ix'), replies) == MapRun(Contents(ix), ops)
            && ix'.size == |Contents(ix')| % KEY_LIMIT
    decreases |ops|
  {
    if ops == [] {
    } else {
      StepRefines(ix, ops[0], order);
      RunRefines(TreeStep(ix, ops[0], order).0, ops[1..], order);
    }
    var ix' := TreeRun(ix, ops, order).0;
    EntriesSorted(ix'.root, 0, KEY_LIMIT);
    SortedPairs(Entries(ix'.root));
  }

  // ---------------------------------------------------------------------------
  // Occupancy and height
  // ---------------------------------------------------------------------------

  /** ceil((order - 1) / 2): the fewest children a non-root internal node can have. */
  function MinKids(order: nat): nat {
    order / 2
  }

  ghost predicate Occupied(t: Tree, order: nat)
    decreases t
  {
    t.Inner? ==>
      && MinKids(order) <= |t.kids|
      && forall i :: 0 <= i < |t.kids| ==> Occupied(t.kids[i], order)
  }

  ghost predicate OccupiedRoot(t: Tree, order: nat) {
    t.Inner? ==> 2 <= |t.kids| && forall i :: 0 <= i < |t.kids| ==> Occupied(t.kids[i], order)
  }

  ghost function LeafCount(t: Tree): nat
    decreases t
  {
    match t
    case Leaf(_, _) => 1
    case Inner(_, kids) => LeafCounts(kids)
  }

  ghost function LeafCounts(ts: seq<Tree>): nat
    decreases ts
  {
    if ts == [] then 0 else LeafCount(ts[0]) + LeafCounts(ts[1..])
  }

  function Pow(b: nat, e: nat): nat {
    if e == 0 then 1 else b * Pow(b, e - 1)
  }

  lemma {:induction false} LeafCountsAppend(a: seq<Tree>, b: seq<Tree>)
    ensures LeafCounts(a + b) == LeafCounts(a) + LeafCounts(b)
    decreases |a|
  {
    if a == [] {
      assert a + b == b;
    } else {
      assert (a + b)[1..] == a[1..] + b;
      LeafCountsAppend(a[1..], b);
    }
  }

  lemma LeafCountsAt(ts: seq<Tree>, i: nat, us: seq<Tree>)
    requires i < |ts|
    ensures LeafCounts(ts[..i] + us + ts[i + 1..]) + LeafCount(ts[i]) == LeafCounts(ts) + LeafCounts(us)
  {
    LeafCountsAppend(ts[..i] + us, ts[i + 1..]);
    LeafCountsAppend(ts[..i], us);
    LeafCountsAppend(ts[..i], ts[i..]);
    assert ts == ts[..i] + ts[i..];
    assert ts[i..][0] == ts[i] && ts[i..][1..] == ts[i + 1..];
  }

  ghost predicate OccupiedResult(r: InsertResult, leaves: int, order: nat) {
    match r
    case Duplicate => true
    case Done(t) => Occupied(t, order) && LeafCount(t) <= leaves + 1
    case Split(l, _, q) => Occupied(l, order) && Occupied(q, order) && LeafCount(l) + LeafCount(q) <= leaves + 1
  }

  lemma {:induction false} SplitInnerOccupied(t: Tree, order: nat)
    requires t.Inner? && |t.kids| == |t.keys| + 1 && |t.keys| == order - 1 && order >= 3
    requires forall i :: 0 <= i < |t.kids| ==> Occupied(t.kids[i], order)
    ensures OccupiedResult(SplitInner(t), LeafCount(t) - 1, order)
  {
    var r := SplitInner(t);
    LeafCountsAppend(r.left.kids, r.right.kids);
    assert t.kids == r.left.kids + r.right.kids;
  }

  ghost predicate KidsOccupied(t: Tree, order: nat) {
    t.Inner? ==> forall i :: 0 <= i < |t.kids| ==> Occupied(t.kids[i], order)
  }

  /** A result whose tree, if it did not split, has at least `width` children when it is internal. */
  ghost predicate WideResult(r: InsertResult, width: nat, leaves: int, order: nat) {
    match r
    case Duplicate => true
    case Done(t) => KidsOccupied(t, order) && (t.Inner? ==> width <= |t.kids|) && LeafCount(t) <= leaves + 1
    case Split(l, _, q) => Occupied(l, order) && Occupied(q, order) && LeafCount(l) + LeafCount(q) <= leaves + 1
  }

  lemma AbsorbDoneOccupied(t: Tree, i: nat, kid: Tree, order: nat)
    requires t.Inner? && |t.kids| == |t.keys| + 1 && i < |t.kids| && order >= 3
    requires KidsOccupied(t, order) && Occupied(kid, order) && LeafCount(kid) <= LeafCount(t.kids[i]) + 1
    ensures WideResult(Absorb(t, i, Done(kid), order), |t.kids|, LeafCount(t), order)
  {
    ReplaceOccupied(t, i, kid, order);
  }

  lemma AbsorbSplitOccupied(t: Tree, i: nat, l: Tree, p: Key, q: Tree, lo: int, hi: int, order: nat)
    requires t.Inner? && Ordered(t, lo, hi) && |t.keys| + 2 <= order && i < |t.kids| && order >= 3
    requires KidsOccupied(t, order) && Occupied(l, order) && Occupied(q, order)
    requires LeafCount(l) + LeafCount(q) <= LeafCount(t.kids[i]) + 1
    requires Low(t.keys, i, lo) < p < High(t.keys, i, hi)
    ensures WideResult(Absorb(t, i, Split(l, p, q), order), |t.kids|, LeafCount(t), order)
  {
    AbsorbSplits(t, i, l, p, q, lo, hi, order);
    WidenOccupied(t, i, l, p, q, order);
    SplitIfFull(Widen(t, i, l, p, q), order);
  }

  lemma AbsorbOccupied(t: Tree, i: nat, r: InsertResult, lo: int, hi: int, order: nat)
    requires t.Inner? && Ordered(t, lo, hi) && |t.keys| + 2 <= order && i < |t.kids| && order >= 3
    requires KidsOccupied(t, order)
    requires OccupiedResult(r, LeafCount(t.kids[i]), order)
    requires r.Split? ==> Low(t.keys, i, lo) < r.promoted < High(t.keys, i, hi)
    ensures WideResult(Absorb(t, i, r, order), |t.kids|, LeafCount(t), order)
  {
    match r
    case Duplicate =>
    case Done(kid) => AbsorbDoneOccupied(t, i, kid, order);
    case Split(l, p, q) => AbsorbSplitOccupied(t, i, l, p, q, lo, hi, order);
  }

  lemma AbsorbSplits(t: Tree, i: nat, l: Tree, p: Key, q: Tree, lo: int, hi: int, order: nat)
    requires t.Inner? && Ordered(t, lo, hi) && i < |t.kids| && order >= 3
    requires Low(t.keys, i, lo) < p < High(t.keys, i, hi)
    ensures var w := Widen(t, i, l, p, q);
            Absorb(t, i, Split(l, p, q), order) == if |w.keys| >= order - 1 then SplitInner(w) else Done(w)
  {
    PromotedPosition(t.keys, i, p, lo, hi);
  }

  lemma ReplaceOccupied(t: Tree, i: nat, kid: Tree, order: nat)
    requires t.Inner? && i < |t.kids| && KidsOccupied(t, order) && Occupied(kid, order)
    ensures KidsOccupied(Inner(t.keys, t.kids[i := kid]), order)
    ensures LeafCount(Inner(t.keys, t.kids[i := kid])) + LeafCount(t.kids[i]) == LeafCount(t) + LeafCount(kid)
  {
    assert t.kids[i := kid] == t.kids[..i] + [kid] + t.kids[i + 1..];
    LeafCountsAt(t.kids, i, [kid]);
    assert LeafCounts([kid]) == LeafCount(kid);
  }

  lemma SplitIfFull(w: Tree, order: nat)
    requires w.Inner? && |w.kids| == |w.keys| + 1 && |w.keys| < order && KidsOccupied(w, order) && order >= 3
    ensures |w.keys| == order - 1 ==> OccupiedResult(SplitInner(w), LeafCount(w) - 1, order)
  {
    if |w.keys| == order - 1 {
      SplitInnerOccupied(w, order);
    }
  }

  lemma WidenOccupied(t: Tree, i: nat, l: Tree, p: Key, q: Tree, order: nat)
    requires t.Inner? && |t.kids| == |t.keys| + 1 && i < |t.kids| && KidsOccupied(t, order)
    requires Occupied(l, order) && Occupied(q, order)
    ensures KidsOccupied(Widen(t, i, l, p, q), order)
    ensures LeafCount(Widen(t, i, l, p, q)) + LeafCount(t.kids[i]) == LeafCount(t) + LeafCount(l) + LeafCount(q)
  {
    var w := Widen(t, i, l, p, q);
    assert w.kids == t.kids[..i] + [l, q] + t.kids[i + 1..];
    LeafCountsAt(t.kids, i, [l, q]);
    TwoLeafCounts(l, q);
  }

  /** Below the root, insertion keeps every internal node at least `MinKids` wide and adds at most one leaf. */
  lemma {:induction false} InsertOccupied(t: Tree, k: Key, v: RecordPtr, lo: int, hi: int, h: nat, order: nat)
    requires Valid(t, lo, hi, h, order) && lo <= k < hi && order >= 3
    requires KidsOccupied(t, order)
    ensures WideResult(Insert(t, k, v, h, order), if t.Inner? then |t.kids| else 0, LeafCount(t), order)
    ensures t.Leaf? && Insert(t, k, v, h, order).Done? ==> Insert(t, k, v, h, order).tree.Leaf?
    decreases t
  {
    if t.Inner? {
      ChildOwnsKey(t.keys, k, lo, hi);
      var i := ChildIndex(t.keys, k);
      InsertOccupied(t.kids[i], k, v, Low(t.keys, i, lo), High(t.keys, i, hi), h - 1, order);
      InsertSound(t.kids[i], k, v, Low(t.keys, i, lo), High(t.keys, i, hi), h - 1, order);
      AbsorbOccupied(t, i, Insert(t.kids[i], k, v, h - 1, order), lo, hi, order);
    }
  }

  lemma {:induction false} LeavesAtLeast(t: Tree, h: nat, order: nat)
    requires Shaped(t, h, order) && Occupied(t, order)
    ensures Pow(MinKids(order), h) <= LeafCount(t)
    decreases t, 1
  {
    if t.Inner? {
      LeavesAtLeastAll(t.kids, h - 1, order);
      var c, p := MinKids(order), Pow(MinKids(order), h - 1);
      assert c * p <= |t.kids| * p;
    }
  }

  lemma {:induction false} LeavesAtLeastAll(ts: seq<Tree>, h: nat, order: nat)
    requires forall i :: 0 <= i < |ts| ==> Shaped(ts[i], h, order) && Occupied(ts[i], order)
    ensures |ts| * Pow(MinKids(order), h) <= LeafCounts(ts)
    decreases ts, 0
  {
    if ts != [] {
      LeavesAtLeast(ts[0], h, order);
      LeavesAtLeastAll(ts[1..], h, order);
      var p := Pow(MinKids(order), h);
      assert |ts| * p == p + (|ts| - 1) * p;
    }
  }

  ghost predicate Healthy(ix: Index, order: nat) {
    ValidIndex(ix, order) && OccupiedRoot(ix.root, order)
  }

  lemma InsertRootOccupied(ix: Index, k: Key, v: RecordPtr, order: nat)
    requires Healthy(ix, order) && InKeyRange(k)
    ensures var r := InsertRoot(ix, k, v, order);
            r.Some? ==> OccupiedRoot(r.value.root, order) && LeafCount(r.value.root) <= LeafCount(ix.root) + 1
  {
    InsertOccupied(ix.root, k, v, 0, KEY_LIMIT, ix.height, order);
    var r := Insert(ix.root, k, v, ix.height, order);
    if r.Split? {
      TwoLeafCounts(r.left, r.right);
    }
  }

  lemma TwoLeafCounts(l: Tree, r: Tree)
    ensures LeafCounts([l, r]) == LeafCount(l) + LeafCount(r)
  {
    assert [l, r][1..] == [r];
    assert LeafCounts([r]) == LeafCount(r);
  }

  /** Delete and update touch no internal node. */
  lemma {:induction false} DeleteOccupied(t: Tree, k: Key, lo: int, hi: int, h: nat, order: nat)
    requires Valid(t, lo, hi, h, order)
    ensures KidsOccupied(t, order) ==> KidsOccupied(Delete(t, k, h, order), order)
    ensures t.Inner? ==> |Delete(t, k, h, order).kids| == |t.kids|
    ensures LeafCount(Delete(t, k, h, order)) == LeafCount(t)
    decreases t
  {
    if t.Inner? {
      var i := ChildIndex(t.keys, k);
      DeleteOccupied(t.kids[i], k, Low(t.keys, i, lo), High(t.keys, i, hi), h - 1, order);
      var kid := Delete(t.kids[i], k, h - 1, order);
      assert t.kids[i := kid] == t.kids[..i] + [kid] + t.kids[i + 1..];
      LeafCountsAt(t.kids, i, [kid]);
      assert LeafCounts([kid]) == LeafCount(kid);
    }
  }

  lemma {:induction false} UpdateOccupied(t: Tree, k: Key, v: RecordPtr, lo: int, hi: int, h: nat, order: nat)
    requires Valid(t, lo, hi, h, order)
    ensures KidsOccupied(t, order) ==> KidsOccupied(Update(t, k, v, h, order), order)
    ensures t.Inner? ==> |Update(t, k, v, h, order).kids| == |t.kids|
    ensures LeafCount(Update(t, k, v, h, order)) == LeafCount(t)
    decreases t
  {
    if t.Inner? {
      var i := ChildIndex(t.keys, k);
      UpdateOccupied(t.kids[i], k, v, Low(t.keys, i, lo), High(t.keys, i, hi), h - 1, order);
      var kid := Update(t.kids[i], k, v, h - 1, order);
      assert t.kids[i := kid] == t.kids[..i] + [kid] + t.kids[i + 1..];
      LeafCountsAt(t.kids, i, [kid]);
      assert LeafCounts([kid]) == LeafCount(kid);
    }
  }

  lemma StepOccupied(ix: Index, op: Op, order: nat)
    requires Healthy(ix, order) && InKeyRange(op.key)
    ensures var (ix', reply) := TreeStep(ix, op, order);
            && Healthy(ix', order)
            && LeafCount(ix'.root) <= LeafCount(ix.root) + (if op.InsertOp? && reply.Ok? then 1 else 0)
  {
    StepRefines(ix, op, order);
    match op
    case InsertOp(k, v) => InsertRootOccupied(ix, k, v, order);
    case DeleteOp(k) => DeleteOccupied(ix.root, k, 0, KEY_LIMIT, ix.height, order);
    case UpdateOp(k, v) => UpdateOccupied(ix.root, k, v, 0, KEY_LIMIT, ix.height, order);
    case SearchOp(_) =>
  }

  ghost function Inserts(ops: seq<Op>, replies: seq<Reply>): nat
    requires |ops| == |replies|
  {
    if ops == [] then 0
    else (if ops[0].InsertOp? && replies[0].Ok? then 1 else 0) + Inserts(ops[1..], replies[1..])
  }

  lemma {:induction false} RunOccupied(ix: Index, ops: seq<Op>, order: nat)
    requires Healthy(ix, order) && InKeyRanges(ops)
    ensures var (ix', replies) := TreeRun(ix, ops, order);
            && |replies| == |ops| && Healthy(ix', order)
            && LeafCount(ix'.root) <= LeafCount(ix.root) + Inserts(ops, replies)
    decreases |ops|
  {
    if ops != [] {
      StepOccupied(ix, ops[0], order);
      var (ix', reply) := TreeStep(ix, ops[0], order);
      RunOccupied(ix', ops[1..], order);
      var replies := TreeRun(ix, ops, order).1;
      assert replies[1..] == TreeRun(ix', ops[1..], order).1;
    }
  }

  lemma TallNeedsLeaves(ix: Index, order: nat)
    requires Healthy(ix, order) && ix.height >= 1
    ensures 2 * Pow(MinKids(order), ix.height - 1) <= LeafCount(ix.root)
  {
    LeavesAtLeastAll(ix.root.kids, ix.height - 1, order);
    var p := Pow(MinKids(order), ix.height - 1);
    assert 2 * p <= |ix.root.kids| * p;
  }

  lemma EmptyHealthy(order: nat)
    requires order >= 3
    ensures Healthy(EmptyIndex, order) && LeafCount(EmptyIndex.root) == 1 && Contents(EmptyIndex) == map[]
  {
  }

  /** A search path visits height + 1 nodes; the height is at most one more than the logarithm, base order / 2,
      of half the leaves there can be, and there is at most one leaf more per successful insert. */
  lemma HeightBound(ix: Index, ops: seq<Op>, order: nat, ix': Index, replies: seq<Reply>)
    requires Healthy(ix, order) && InKeyRanges(ops)
    requires TreeRun(ix, ops, order) == (ix', replies)
    ensures |replies| == |ops|
    ensures ix'.height >= 1 ==> 2 * Pow(MinKids(order), ix'.height - 1) <= LeafCount(ix.root) + Inserts(ops, replies)
  {
    assert |replies| == |ops| && Healthy(ix', order) && LeafCount(ix'.root) <= LeafCount(ix.root) + Inserts(ops, replies) by {
      RunOccupied(ix, ops, order);
    }
    if ix'.height >= 1 {
      TallNeedsLeaves(ix', order);
    }
  }
}
