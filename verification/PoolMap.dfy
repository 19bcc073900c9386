// The buffer pool's hash map: linear probing, with the rest of the cluster rehashed when an entry is removed.
module PoolMap {
  import opened Common

  datatype PageKey = PageKey(fd: int, page: nat)

  datatype Bucket = Vacant | Full(key: PageKey, frame: nat)

  type Table = seq<Bucket>


  /** _hash: 32-bit arithmetic, the file descriptor taken as unsigned. */
  function Home(k: PageKey, cap: nat): (h: nat)
    requires cap > 0
    ensures h < cap
  {
    ((k.fd % WORD * 31 + k.page) % WORD) % cap
  }

  /** The slot `c` steps after `b` on the circle, and how many steps lead from `h` to `i`. */
  function Slot(b: nat, c: nat, cap: nat): (s: nat)
    requires b < cap && c < cap
    ensures s < cap && s == (b + c) % cap
  {
    SlotMod(b, c, cap);
    if b + c < cap then b + c else b + c - cap
  }

  lemma SlotMod(b: nat, c: nat, cap: nat)
    requires b < cap && c < cap
    ensures (b + c) % cap == if b + c < cap then b + c else b + c - cap
  {
  }

  function Steps(h: nat, i: nat, cap: nat): (d: nat)
    requires h < cap && i < cap
    ensures d < cap && Slot(h, d, cap) == i
  {
    if h <= i then i - h else i + cap - h
  }

  // ---------------------------------------------------------------------------
  // Invariants of the table
  // ---------------------------------------------------------------------------

  /** Every slot an entry's search passes on its way to slot `i` is taken. */
  ghost predicate Reached(m: Table, k: PageKey, i: nat)
    requires i < |m|
  {
    forall j :: 0 <= j < Steps(Home(k, |m|), i, |m|) ==> m[Slot(Home(k, |m|), j, |m|)].Full?
  }

  ghost predicate AllReached(m: Table) {
    forall i :: 0 <= i < |m| && m[i].Full? ==> Reached(m, m[i].key, i)
  }

  ghost predicate UniqueKeys(m: Table) {
    forall i, j :: 0 <= i < j < |m| && m[i].Full? && m[j].Full? ==> m[i].key != m[j].key
  }

  /** The table holds exactly the pairs of `index`. */
  ghost predicate Stores(m: Table, index: map<PageKey, nat>) {
    && (forall i :: 0 <= i < |m| && m[i].Full? ==> m[i].key in index && index[m[i].key] == m[i].frame)
    && (forall k :: k in index ==> exists i :: 0 <= i < |m| && m[i] == Full(k, index[k]))
  }

  ghost predicate TableOk(m: Table, index: map<PageKey, nat>) {
    |m| > 0 && AllReached(m) && UniqueKeys(m) && Stores(m, index)
  }

  ghost predicate HasVacant(m: Table) {
    exists i :: 0 <= i < |m| && m[i].Vacant?
  }

  /** A table with fewer keys than slots has a vacant slot. */
  lemma VacantExists(m: Table, index: map<PageKey, nat>)
    requires UniqueKeys(m) && Stores(m, index) && |index.Keys| < |m|
    ensures HasVacant(m)
  {
    if !HasVacant(m) {
      var ks := KeysUpTo(m, |m|);
      KeysUpToSize(m, |m|);
      assert ks <= index.Keys;
      SubsetSize(ks, index.Keys);
    }
  }

  ghost function KeysUpTo(m: Table, n: nat): set<PageKey>
    requires n <= |m|
  {
    set i | 0 <= i < n && m[i].Full? :: m[i].key
  }

  lemma {:induction false} KeysUpToSize(m: Table, n: nat)
    requires n <= |m| && UniqueKeys(m) && forall i :: 0 <= i < n ==> m[i].Full?
    ensures |KeysUpTo(m, n)| == n
    decreases n
  {
    if n > 0 {
      KeysUpToSize(m, n - 1);
      assert KeysUpTo(m, n) == KeysUpTo(m, n - 1) + {m[n - 1].key};
    } else {
      assert KeysUpTo(m, n) == {};
    }
  }

  // ---------------------------------------------------------------------------
  // _map_find and _map_insert
  // ---------------------------------------------------------------------------

  /** A search for `k` passes other keys only, up to slot number `d` of its path. */
  ghost predicate PassesOthers(m: Table, k: PageKey, d: nat)
    requires 0 < |m| && d <= |m|
  {
    forall j :: 0 <= j < d ==> m[Slot(Home(k, |m|), j, |m|)].Full? && m[Slot(Home(k, |m|), j, |m|)].key != k
  }

  /** Where on its path a stored key lies. */
  lemma Path(m: Table, k: PageKey, index: map<PageKey, nat>) returns (d: nat)
    requires TableOk(m, index) && k in index
    ensures d < |m| && m[Slot(Home(k, |m|), d, |m|)] == Full(k, index[k]) && PassesOthers(m, k, d)
  {
    var p :| 0 <= p < |m| && m[p] == Full(k, index[k]);
    d := Steps(Home(k, |m|), p, |m|);
    assert Reached(m, k, p);
    forall j | 0 <= j < d ensures m[Slot(Home(k, |m|), j, |m|)].key != k {
      assert m[Slot(Home(k, |m|), j, |m|)].Full?;
    }
  }

  /** _map_find: the bucket of `k`, or the table's length when `k` is not there. */
  method MapFind(a: array<Bucket>, k: PageKey, ghost index: map<PageKey, nat>) returns (b: nat)
    requires TableOk(a[..], index)
    ensures k in index ==> b < a.Length && a[b] == Full(k, index[k])
    ensures k !in index ==> b == a.Length
  {
    var cap := a.Length;
    var home := Home(k, cap);
    ghost var m := a[..];
    ghost var d := cap;
    if k in index {
      d := Path(m, k, index);
    }
    var i := 0;
    while i < cap
      invariant 0 <= i <= d <= cap
    {
      var probe := (home + i) % cap;
      assert probe == Slot(home, i, cap) && a[probe] == m[probe];
      if a[probe].Vacant? {
        return cap;
      }
      if a[probe].key == k {
        return probe;
      }
      i := i + 1;
    }
    return cap;
  }

  /** The slot an insertion of `k` ends in: the first vacant one on its search path. */
  ghost predicate FirstVacant(m: Table, k: PageKey, x: nat)
    requires x < |m|
  {
    m[x].Vacant? && Reached(m, k, x)
  }

  ghost predicate TakenTo(m: Table, h: nat, d: nat)
    requires h < |m| && d <= |m|
  {
    forall j :: 0 <= j < d ==> m[Slot(h, j, |m|)].Full?
  }

  /** The first vacant slot from `h` on is some `d` steps away. */
  lemma FirstFree(m: Table, h: nat) returns (d: nat)
    requires h < |m| && HasVacant(m)
    ensures d < |m| && m[Slot(h, d, |m|)].Vacant? && TakenTo(m, h, d)
  {
    var x :| 0 <= x < |m| && m[x].Vacant?;
    d := FreeWithin(m, h, 0, Steps(h, x, |m|));
  }

  lemma {:induction false} FreeWithin(m: Table, h: nat, i: nat, n: nat) returns (d: nat)
    requires h < |m| && i <= n < |m| && m[Slot(h, n, |m|)].Vacant? && TakenTo(m, h, i)
    ensures d <= n && m[Slot(h, d, |m|)].Vacant? && TakenTo(m, h, d)
    decreases n - i
  {
    d := i;
    if m[Slot(h, i, |m|)].Full? {
      d := FreeWithin(m, h, i + 1, n);
    }
  }

  /** _map_insert: takes the first vacant slot on the path. */
  method MapInsert(a: array<Bucket>, k: PageKey, frame: nat) returns (ghost x: nat)
    requires a.Length > 0 && HasVacant(a[..])
    modifies a
    ensures x < a.Length && FirstVacant(old(a[..]), k, x) && a[..] == old(a[..])[x := Full(k, frame)]
  {
    var cap := a.Length;
    var home := Home(k, cap);
    ghost var m := a[..];
    ghost var d := FirstFree(m, home);
    x := Slot(home, d, cap);
    assert Steps(home, x, cap) == d;
    var i := 0;
    while i < cap
      invariant 0 <= i <= d && a[..] == m
    {
      var probe := (home + i) % cap;
      assert probe == Slot(home, i, cap) && a[probe] == m[probe];
      if a[probe].Vacant? {
        a[probe] := Full(k, frame);
        return;
      }
      i := i + 1;
    }
    assert false;
  }

  /** Filling a vacant slot on its path with a new key keeps the table in order. */
  lemma InsertOk(m: Table, index: map<PageKey, nat>, k: PageKey, frame: nat, x: nat)
    requires TableOk(m, index) && k !in index && x < |m| && FirstVacant(m, k, x)
    ensures TableOk(m[x := Full(k, frame)], index[k := frame])
  {
    var m' := m[x := Full(k, frame)];
    forall i | 0 <= i < |m'| && m'[i].Full? ensures Reached(m', m'[i].key, i) {
      if i != x {
        assert Reached(m, m[i].key, i);
      }
    }
    var index' := index[k := frame];
    forall q | q in index' ensures exists i :: 0 <= i < |m'| && m'[i] == Full(q, index'[q]) {
      if q == k {
        assert m'[x] == Full(q, frame);
      } else {
        var i :| 0 <= i < |m| && m[i] == Full(q, index[q]);
        assert m'[i] == m[i];
      }
    }
  }

  // ---------------------------------------------------------------------------
  // _map_remove
  // ---------------------------------------------------------------------------

  ghost predicate FullOrNear(m: Table, s: nat, b: nat, c: nat)
    requires s < |m| && b < |m|
  {
    m[s].Full? || Steps(b, s, |m|) < c
  }

  /** Up to slot `i`, the path of `k` is taken but for slots less than `c` steps beyond `b`. */
  ghost predicate ReachedBut(m: Table, k: PageKey, i: nat, b: nat, c: nat)
    requires i < |m| && b < |m|
  {
    forall j :: 0 <= j < Steps(Home(k, |m|), i, |m|) ==> FullOrNear(m, Slot(Home(k, |m|), j, |m|), b, c)
  }

  ghost predicate NotLater(k: PageKey, j: nat, i: nat, cap: nat)
    requires i < cap && j < cap
  {
    Steps(Home(k, cap), j, cap) <= Steps(Home(k, cap), i, cap)
  }

  /** No entry of `m` lies further along its path than it did in `before`. */
  ghost predicate NoneLater(before: Table, m: Table) {
    && |before| == |m|
    && forall i, j :: 0 <= i < |m| && 0 <= j < |m| && before[i].Full? && m[j].Full? && before[i].key == m[j].key ==>
                        NotLater(m[j].key, j, i, |m|)
  }

  /** The slots from `c` to `n` steps beyond `b` are still to be rehashed; the one at `n` ends the cluster. */
  ghost predicate Rehashing(m: Table, before: Table, b: nat, c: nat, n: nat)
    requires b < |m|
  {
    && |before| == |m| && 1 <= c <= n < |m| && m[Slot(b, n, |m|)].Vacant?
    && (forall i :: 0 <= i < |m| && c <= Steps(b, i, |m|) < n ==> m[i].Full? && m[i] == before[i])
    && (forall i :: 0 <= i < |m| && m[i].Full? ==>
          if c <= Steps(b, i, |m|) < n then ReachedBut(m, m[i].key, i, b, c) else Reached(m, m[i].key, i))
    && UniqueKeys(m) && NoneLater(before, m)
  }

  lemma RehashBegins(before: Table, index: map<PageKey, nat>, b: nat, n: nat)
    requires TableOk(before, index) && b < |before| && before[b].Full?
    requires 1 <= n < |before| && before[Slot(b, n, |before|)].Vacant?
    requires forall i :: 0 <= i < |before| && 1 <= Steps(b, i, |before|) < n ==> before[i].Full?
    ensures Rehashing(before[b := Vacant], before, b, 1, n)
  {
    var m := before[b := Vacant];
    forall i | 0 <= i < |m| && m[i].Full?
      ensures if 1 <= Steps(b, i, |m|) < n then ReachedBut(m, m[i].key, i, b, 1) else Reached(m, m[i].key, i)
    {
      BeginKeeps(before, index, b, n, i);
    }
    assert m[Slot(b, n, |m|)].Vacant?;
    BeginPlaces(before, b);
  }

  lemma BeginPlaces(before: Table, b: nat)
    requires UniqueKeys(before) && b < |before|
    ensures UniqueKeys(before[b := Vacant]) && NoneLater(before, before[b := Vacant])
  {
    var m := before[b := Vacant];
    forall i, j | 0 <= i < |m| && 0 <= j < |m| && before[i].Full? && m[j].Full? && before[i].key == m[j].key
      ensures i == j
    {
      assert m[j] == before[j];
    }
  }

  lemma BeginKeeps(before: Table, index: map<PageKey, nat>, b: nat, n: nat, i: nat)
    requires TableOk(before, index) && b < |before| && i < |before| && i != b && before[i].Full?
    requires 1 <= n < |before| && before[Slot(b, n, |before|)].Vacant?
    ensures var m := before[b := Vacant];
            if 1 <= Steps(b, i, |m|) < n then ReachedBut(m, m[i].key, i, b, 1) else Reached(m, m[i].key, i)
  {
    assert Reached(before, before[i].key, i);
    if !(1 <= Steps(b, i, |before|) < n) {
      OffPath(before, i, b, 0, n);
    }
  }

  lemma ClearStores(m: Table, index: map<PageKey, nat>, k: PageKey, b: nat)
    requires Stores(m, index) && UniqueKeys(m) && k in index && b < |m| && m[b] == Full(k, index[k])
    ensures Stores(m[b := Vacant], index - {k})
  {
    var m', index' := m[b := Vacant], index - {k};
    forall i | 0 <= i < |m'| && m'[i].Full? ensures m'[i].key in index' && index'[m'[i].key] == m'[i].frame {
      assert m'[i] == m[i];
    }
    forall q | q in index' ensures exists i :: 0 <= i < |m'| && m'[i] == Full(q, index'[q]) {
      var i :| 0 <= i < |m| && m[i] == Full(q, index[q]);
      assert m'[i] == m[i];
    }
  }

  /** An entry outside the stretch from `c` to `n` steps beyond `b` does not pass slot `c` on its way: it would have to
      pass the vacant slot `n` too. */
  lemma OffPath(m: Table, i: nat, b: nat, c: nat, n: nat)
    requires i < |m| && b < |m| && c < n < |m| && m[i].Full? && Reached(m, m[i].key, i)
    requires m[Slot(b, n, |m|)].Vacant? && (Steps(b, i, |m|) <= c || n <= Steps(b, i, |m|))
    ensures forall j :: 0 <= j < Steps(Home(m[i].key, |m|), i, |m|) ==> Slot(Home(m[i].key, |m|), j, |m|) != Slot(b, c, |m|)
  {
    var h, cap := Home(m[i].key, |m|), |m|;
    forall j | 0 <= j < Steps(h, i, cap) ensures Slot(h, j, cap) != Slot(b, c, cap) {
      if Slot(h, j, cap) == Slot(b, c, cap) {
        PassesEnd(h, i, b, c, n, cap, j);
      }
    }
  }

  lemma PassesEnd(h: nat, i: nat, b: nat, c: nat, n: nat, cap: nat, j: nat)
    requires h < cap && i < cap && b < cap && c < n < cap && j < Steps(h, i, cap) && Slot(h, j, cap) == Slot(b, c, cap)
    requires Steps(b, i, cap) <= c || n <= Steps(b, i, cap)
    requires i != Slot(b, n, cap)
    ensures j + (n - c) < Steps(h, i, cap) && Slot(h, j + (n - c), cap) == Slot(b, n, cap)
  {
  }

  lemma PastVacant(m: Table, k: PageKey, p: nat, x: nat)
    requires p < |m| && x < |m| && m[p].Vacant? && Steps(Home(k, |m|), p, |m|) < Steps(Home(k, |m|), x, |m|)
    ensures !Reached(m, k, x)
  {
    assert m[Slot(Home(k, |m|), Steps(Home(k, |m|), p, |m|), |m|)].Vacant?;
  }

  /** The entry at the probe goes back in at or before its old place, and not beyond the probe. */
  lemma Target(m: Table, before: Table, b: nat, c: nat, n: nat, x: nat)
    requires b < |m| && Rehashing(m, before, b, c, n) && c < n && x < |m|
    requires var p := Slot(b, c, |m|); m[p].Full? && FirstVacant(m[p := Vacant], m[p].key, x)
    ensures var p := Slot(b, c, |m|);
            Steps(b, x, |m|) <= c && Steps(Home(m[p].key, |m|), x, |m|) <= Steps(Home(m[p].key, |m|), p, |m|)
  {
    var p, cap := Slot(b, c, |m|), |m|;
    var h := Home(m[p].key, cap);
    assert Steps(b, p, cap) == c;
    var dx, dp := Steps(h, x, cap), Steps(h, p, cap);
    if dp < dx {
      PastVacant(m[p := Vacant], m[p].key, p, x);
    } else if dx < dp {
      assert ReachedBut(m, m[p].key, p, b, c);
      assert FullOrNear(m, Slot(h, dx, cap), b, c);
    }
  }

  lemma RehashStep(m: Table, before: Table, b: nat, c: nat, n: nat, x: nat)
    requires b < |m| && Rehashing(m, before, b, c, n) && c < n && x < |m|
    requires var p := Slot(b, c, |m|); m[p].Full? && FirstVacant(m[p := Vacant], m[p].key, x)
    ensures var p := Slot(b, c, |m|); Rehashing(m[p := Vacant][x := m[p]], before, b, c + 1, n)
  {
    var p, cap := Slot(b, c, |m|), |m|;
    var m' := m[p := Vacant][x := m[p]];
    Target(m, before, b, c, n, x);
    assert Steps(b, p, cap) == c;
    forall i | 0 <= i < cap && m'[i].Full?
      ensures if c + 1 <= Steps(b, i, cap) < n then ReachedBut(m', m'[i].key, i, b, c + 1) else Reached(m', m'[i].key, i)
    {
      RehashKeeps(m, before, b, c, n, x, i);
    }
    assert m'[Slot(b, n, cap)].Vacant?;
    RehashPlaces(m, before, b, c, n, x);
  }

  /** The moved entry is behind the probe now, and reached. */
  lemma RehashMoved(m: Table, before: Table, b: nat, c: nat, n: nat, x: nat)
    requires b < |m| && Rehashing(m, before, b, c, n) && c < n && x < |m|
    requires var p := Slot(b, c, |m|); m[p].Full? && FirstVacant(m[p := Vacant], m[p].key, x)
    ensures var m' := m[Slot(b, c, |m|) := Vacant][x := m[Slot(b, c, |m|)]];
            Steps(b, x, |m|) <= c && m'[x].Full? && Reached(m', m'[x].key, x)
  {
    var p := Slot(b, c, |m|);
    Target(m, before, b, c, n, x);
    assert Reached(m[p := Vacant], m[p].key, x);
  }

  /** The entries ahead of the probe may pass the slot just vacated, besides those before it. */
  lemma RehashAhead(m: Table, before: Table, b: nat, c: nat, n: nat, x: nat, i: nat)
    requires b < |m| && Rehashing(m, before, b, c, n) && c < n && x < |m| && i < |m|
    requires m[Slot(b, c, |m|)].Full? && c + 1 <= Steps(b, i, |m|) < n && i != x
    ensures var m' := m[Slot(b, c, |m|) := Vacant][x := m[Slot(b, c, |m|)]]; m'[i].Full? && ReachedBut(m', m'[i].key, i, b, c + 1)
  {
    assert ReachedBut(m, m[i].key, i, b, c);
  }

  /** All others do not pass it. */
  lemma RehashBehind(m: Table, before: Table, b: nat, c: nat, n: nat, x: nat, i: nat)
    requires b < |m| && Rehashing(m, before, b, c, n) && c < n && x < |m| && i < |m|
    requires m[Slot(b, c, |m|)].Full? && i != x && i != Slot(b, c, |m|) && m[i].Full?
    requires Steps(b, i, |m|) <= c || n <= Steps(b, i, |m|)
    ensures var m' := m[Slot(b, c, |m|) := Vacant][x := m[Slot(b, c, |m|)]]; Reached(m', m'[i].key, i)
  {
    assert Steps(b, i, |m|) != c;
    assert Reached(m, m[i].key, i);
    OffPath(m, i, b, c, n);
  }

  lemma RehashKeeps(m: Table, before: Table, b: nat, c: nat, n: nat, x: nat, i: nat)
    requires b < |m| && Rehashing(m, before, b, c, n) && c < n && x < |m| && i < |m|
    requires var p := Slot(b, c, |m|); m[p].Full? && FirstVacant(m[p := Vacant], m[p].key, x)
    requires m[Slot(b, c, |m|) := Vacant][x := m[Slot(b, c, |m|)]][i].Full?
    ensures var m' := m[Slot(b, c, |m|) := Vacant][x := m[Slot(b, c, |m|)]];
            if c + 1 <= Steps(b, i, |m|) < n then ReachedBut(m', m'[i].key, i, b, c + 1) == true else Reached(m', m'[i].key, i) == true
  {
    if i == x {
      RehashMoved(m, before, b, c, n, x);
    } else if c + 1 <= Steps(b, i, |m|) < n {
      RehashAhead(m, before, b, c, n, x, i);
    } else {
      RehashBehind(m, before, b, c, n, x, i);
    }
  }

  lemma RehashPlaces(m: Table, before: Table, b: nat, c: nat, n: nat, x: nat)
    requires b < |m| && Rehashing(m, before, b, c, n) && c < n && x < |m|
    requires var p := Slot(b, c, |m|); m[p].Full? && FirstVacant(m[p := Vacant], m[p].key, x)
    ensures var m' := m[Slot(b, c, |m|) := Vacant][x := m[Slot(b, c, |m|)]]; UniqueKeys(m') && NoneLater(before, m')
  {
    var p, cap := Slot(b, c, |m|), |m|;
    var m' := m[p := Vacant][x := m[p]];
    Target(m, before, b, c, n, x);
    assert m[p] == before[p];
    forall i, j | 0 <= i < cap && 0 <= j < cap && before[i].Full? && m'[j].Full? && before[i].key == m'[j].key
      ensures NotLater(m'[j].key, j, i, cap)
    {
      var j' := if j == x then p else j;
      assert m[j'] == m'[j] && NotLater(m[j'].key, j', i, cap);
    }
  }

  /** Moving an entry changes what the table stores no more than it moves. */
  lemma MoveStores(m: Table, index: map<PageKey, nat>, p: nat, x: nat)
    requires Stores(m, index) && p < |m| && x < |m| && m[p].Full? && m[p := Vacant][x].Vacant?
    ensures Stores(m[p := Vacant][x := m[p]], index)
  {
    var m' := m[p := Vacant][x := m[p]];
    forall q | q in index ensures exists i :: 0 <= i < |m'| && m'[i] == Full(q, index[q]) {
      var i :| 0 <= i < |m| && m[i] == Full(q, index[q]);
      assert m'[if i == p then x else i] == m[i];
    }
  }

  /** One entry of the cluster is taken out and put back. */
  method Rehash(a: array<Bucket>, probe: nat, ghost before: Table, ghost index: map<PageKey, nat>,
                ghost b: nat, ghost c: nat, ghost n: nat)
    requires b < a.Length && Rehashing(a[..], before, b, c, n) && c < n && probe == Slot(b, c, a.Length) && a[probe].Full?
    requires Stores(a[..], index)
    modifies a
    ensures Rehashing(a[..], before, b, c + 1, n) == true && Stores(a[..], index) == true
  {
    ghost var m := a[..];
    var entry := a[probe];
    a[probe] := Vacant;
    assert a[..] == m[probe := Vacant] && a[..][probe].Vacant?;
    ghost var x := MapInsert(a, entry.key, entry.frame);
    RehashStep(m, before, b, c, n, x);
    MoveStores(m, index, probe, x);
  }

  lemma RehashEnds(m: Table, before: Table, index: map<PageKey, nat>, b: nat, n: nat)
    requires b < |m| && Rehashing(m, before, b, n, n) && Stores(m, index)
    ensures TableOk(m, index) && NoneLater(before, m)
  {
  }

  method ClearBucket(a: array<Bucket>, k: PageKey, ghost index: map<PageKey, nat>) returns (b: nat, ghost n: nat)
    requires TableOk(a[..], index) && |index.Keys| < a.Length && k in index
    modifies a
    ensures b < a.Length && 1 <= n < a.Length
    ensures Rehashing(a[..], old(a[..]), b, 1, n) == true && Stores(a[..], index - {k}) == true
  {
    b := MapFind(a, k, index);
    ghost var before := a[..];
    n := ClusterEnd(before, index, b);
    RehashBegins(before, index, b, n);
    ClearStores(before, index, k, b);
    a[b] := Vacant;
    assert a[..] == before[b := Vacant];
  }

  method Advance(probe: nat, cap: nat, ghost b: nat, ghost c: nat) returns (next: nat)
    requires b < cap && c + 1 < cap && probe == Slot(b, c, cap)
    ensures next == Slot(b, c + 1, cap)
  {
    NextSlot(b, c + 1, cap);
    next := (probe + 1) % cap;
  }

  lemma StillInCluster(m: Table, before: Table, b: nat, c: nat, n: nat)
    requires b < |m| && Rehashing(m, before, b, c, n) && m[Slot(b, c, |m|)].Full?
    ensures c < n
  {
  }

  lemma AtClusterEnd(m: Table, before: Table, b: nat, c: nat, n: nat)
    requires b < |m| && Rehashing(m, before, b, c, n) && m[Slot(b, c, |m|)].Vacant?
    ensures c == n
  {
    assert Steps(b, Slot(b, c, |m|), |m|) == c;
  }

  lemma NextSlot(b: nat, c: nat, cap: nat)
    requires b < cap && 1 <= c < cap
    ensures (Slot(b, c - 1, cap) + 1) % cap == Slot(b, c, cap)
  {
  }

  /** The entry at the probe is rehashed, and the probe moves on. */
  method RehashNext(a: array<Bucket>, probe: nat, ghost before: Table, ghost index: map<PageKey, nat>,
                    ghost b: nat, ghost c: nat, ghost n: nat)
    returns (next: nat)
    requires b < a.Length && Rehashing(a[..], before, b, c, n) == true && Stores(a[..], index) == true
    requires probe == Slot(b, c, a.Length) && a[probe].Full?
    modifies a
    ensures c < n < a.Length && next == Slot(b, c + 1, a.Length)
    ensures Rehashing(a[..], before, b, c + 1, n) == true && Stores(a[..], index) == true
  {
    StillInCluster(a[..], before, b, c, n);
    Rehash(a, probe, before, index, b, c, n);
    next := Advance(probe, a.Length, b, c);
  }

  /** The walk round the cluster, from the bucket behind the cleared one. */
  method RehashCluster(a: array<Bucket>, b: nat, ghost before: Table, ghost index: map<PageKey, nat>, ghost n: nat)
    requires b < a.Length && 1 <= n < a.Length
    requires Rehashing(a[..], before, b, 1, n) == true && Stores(a[..], index) == true
    modifies a
    ensures Rehashing(a[..], before, b, n, n) == true && Stores(a[..], index) == true
  {
    ghost var c := 1;
    var probe := Advance(b, a.Length, b, 0);
    while a[probe].Full?
      invariant 1 <= c <= n && probe == Slot(b, c, a.Length)
      invariant Rehashing(a[..], before, b, c, n) == true && Stores(a[..], index) == true
      decreases n - c
    {
      probe := RehashNext(a, probe, before, index, b, c, n);
      c := c + 1;
    }
    AtClusterEnd(a[..], before, b, c, n);
  }

  /** _map_remove: clears the bucket and rehashes the rest of its cluster. */
  method MapRemove(a: array<Bucket>, k: PageKey, ghost index: map<PageKey, nat>)
    requires TableOk(a[..], index) && |index.Keys| < a.Length && k in index
    modifies a
    ensures TableOk(a[..], index - {k}) && NoneLater(old(a[..]), a[..])
  {
    ghost var before := a[..];
    var b;
    ghost var n;
    b, n := ClearBucket(a, k, index);
    RehashCluster(a, b, before, index - {k}, n);
    RehashEnds(a[..], before, index - {k}, b, n);
  }

  /** The run of taken slots after `b` ends before it comes round again. */
  lemma ClusterEnd(m: Table, index: map<PageKey, nat>, b: nat) returns (n: nat)
    requires TableOk(m, index) && |index.Keys| < |m| && b < |m| && m[b].Full?
    ensures 1 <= n < |m| && m[Slot(b, n, |m|)].Vacant?
    ensures forall i :: 0 <= i < |m| && 1 <= Steps(b, i, |m|) < n ==> m[i].Full?
  {
    VacantExists(m, index);
    n := FirstFree(m, b);
    forall i | 0 <= i < |m| && 1 <= Steps(b, i, |m|) < n ensures m[i].Full? {
      assert m[Slot(b, Steps(b, i, |m|), |m|)].Full?;
    }
  }
}
