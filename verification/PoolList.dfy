// The buffer pool's frames and the LRU list threaded through them, as values: what a consistent list looks like and
// what unlinking a frame or pushing it to the front does to it.
module PoolList {
  import opened Common
  import opened PoolMap

  /** FRAME_NONE */
  const NONE := 0xFFFF_FFFF

  datatype Frame = Frame(key: PageKey, pin: nat, dirty: bool, valid: bool, prev: nat, next: nat)

  function PrevIn(order: seq<nat>, i: nat): nat
    requires i < |order|
  {
    if i == 0 then NONE else order[i - 1]
  }

  function NextIn(order: seq<nat>, i: nat): nat
    requires i < |order|
  {
    if i + 1 == |order| then NONE else order[i + 1]
  }

  ghost predicate LinkAt(fs: seq<Frame>, order: seq<nat>, i: nat)
    requires i < |order| && order[i] < |fs|
  {
    fs[order[i]].prev == PrevIn(order, i) && fs[order[i]].next == NextIn(order, i)
  }

  /** The prev and next fields thread exactly the frames of `order`, from most to least recently used. */
  ghost predicate Linked(fs: seq<Frame>, head: nat, tail: nat, order: seq<nat>) {
    && |fs| < NONE && Distinct(order)
    && (forall i :: 0 <= i < |order| ==> order[i] < |fs|)
    && head == (if order == [] then NONE else order[0])
    && tail == (if order == [] then NONE else order[|order| - 1])
    && (forall i {:trigger LinkAt(fs, order, i)} :: 0 <= i < |order| ==> LinkAt(fs, order, i))
  }

  /** Only links differ. */
  ghost predicate SameButLinks(fs: seq<Frame>, gs: seq<Frame>) {
    |fs| == |gs| && forall i :: 0 <= i < |fs| ==> gs[i] == fs[i].(prev := gs[i].prev, next := gs[i].next)
  }

  ghost function Cut(order: seq<nat>, p: nat): seq<nat>
    requires p < |order|
  {
    order[..p] + order[p + 1..]
  }

  // The array after _lru_remove of the frame at position p: its neighbours point at each other.

  ghost function Unlink(fs: seq<Frame>, f: nat): seq<Frame>
    requires f < |fs| && (fs[f].prev != NONE ==> fs[f].prev < |fs|) && (fs[f].next != NONE ==> fs[f].next < |fs|)
  {
    var a := if fs[f].prev != NONE then fs[fs[f].prev := fs[fs[f].prev].(next := fs[f].next)] else fs;
    var b := if a[f].next != NONE then a[a[f].next := a[a[f].next].(prev := a[f].prev)] else a;
    b[f := b[f].(prev := NONE, next := NONE)]
  }

  lemma NeighboursIn(fs: seq<Frame>, head: nat, tail: nat, order: seq<nat>, p: nat)
    requires Linked(fs, head, tail, order) && p < |order|
    ensures var f := fs[order[p]];
            && (f.prev != NONE ==> p > 0 && f.prev == order[p - 1] < |fs|) && (f.prev == NONE ==> p == 0)
            && (f.next != NONE ==> p + 1 < |order| && f.next == order[p + 1] < |fs|) && (f.next == NONE ==> p + 1 == |order|)
            && f.prev != order[p] && f.next != order[p]
  {
    assert LinkAt(fs, order, p);
  }

  lemma CutAt(order: seq<nat>, p: nat)
    requires p < |order|
    ensures |Cut(order, p)| == |order| - 1
    ensures forall i :: 0 <= i < |order| - 1 ==> Cut(order, p)[i] == if i < p then order[i] else order[i + 1]
    ensures Distinct(order) ==> Distinct(Cut(order, p))
    ensures forall x :: x in Cut(order, p) ==> x in order
    ensures Distinct(order) ==> forall x :: x in order && x != order[p] ==> x in Cut(order, p)
    ensures Distinct(order) ==> order[p] !in Cut(order, p)
  {
    var r := Cut(order, p);
    forall x | x in order && x != order[p] ensures x in r {
      var i :| 0 <= i < |order| && order[i] == x;
      assert r[if i < p then i else i - 1] == x;
    }
  }

  ghost predicate NeighboursOk(fs: seq<Frame>, order: seq<nat>, p: nat) {
    && p < |order| && order[p] < |fs|
    && (fs[order[p]].prev != NONE ==> fs[order[p]].prev < |fs|) && (fs[order[p]].next != NONE ==> fs[order[p]].next < |fs|)
  }

  /** Frame by frame: the neighbours get new links, everyone else stays. */
  lemma UnlinkFields(fs: seq<Frame>, f: nat, g: nat)
    requires f < |fs| && (fs[f].prev != NONE ==> fs[f].prev < |fs|) && (fs[f].next != NONE ==> fs[f].next < |fs|)
    requires |fs| < NONE && fs[f].prev != f && fs[f].next != f && g < |fs| && g != f
    ensures |Unlink(fs, f)| == |fs|
    ensures Unlink(fs, f)[g] == fs[g].(prev := if g == fs[f].next then fs[f].prev else fs[g].prev,
                                       next := if g == fs[f].prev then fs[f].next else fs[g].next)
  {
  }

  lemma UnlinkAt(fs: seq<Frame>, head: nat, tail: nat, order: seq<nat>, p: nat, i: nat)
    requires Linked(fs, head, tail, order) && p < |order| && i < |order| && i != p
    ensures NeighboursOk(fs, order, p)
    ensures var gs := Unlink(fs, order[p]);
            && |gs| == |fs|
            && gs[order[i]].prev == (if i == p + 1 then PrevIn(order, p) else PrevIn(order, i))
            && gs[order[i]].next == (if i + 1 == p then NextIn(order, p) else NextIn(order, i))
  {
    NeighboursIn(fs, head, tail, order, p);
    assert order[i] != order[p] && LinkAt(fs, order, i) && LinkAt(fs, order, p);
    UnlinkFields(fs, order[p], order[i]);
    assert p > 0 && i != p - 1 ==> order[i] != order[p - 1];
    assert p + 1 < |order| && i != p + 1 ==> order[i] != order[p + 1];
  }

  lemma UnlinkLinks(fs: seq<Frame>, head: nat, tail: nat, order: seq<nat>, p: nat, i: nat)
    requires Linked(fs, head, tail, order) && p < |order| && i < |order| - 1
    ensures NeighboursOk(fs, order, p)
    ensures var r := Cut(order, p); var gs := Unlink(fs, order[p]);
            |r| == |order| - 1 && r[i] < |fs| == |gs| && LinkAt(gs, r, i)
  {
    CutAt(order, p);
    UnlinkAt(fs, head, tail, order, p, if i < p then i else i + 1);
  }

  lemma UnlinkEnds(fs: seq<Frame>, head: nat, tail: nat, order: seq<nat>, p: nat)
    requires Linked(fs, head, tail, order) && p < |order|
    ensures var f, r := fs[order[p]], Cut(order, p);
            && (if f.prev == NONE then f.next else head) == (if r == [] then NONE else r[0])
            && (if f.next == NONE then f.prev else tail) == (if r == [] then NONE else r[|r| - 1])
  {
    NeighboursIn(fs, head, tail, order, p);
    CutAt(order, p);
  }

  lemma UnlinkSame(fs: seq<Frame>, head: nat, tail: nat, order: seq<nat>, p: nat)
    requires Linked(fs, head, tail, order) && p < |order|
    ensures NeighboursOk(fs, order, p) && SameButLinks(fs, Unlink(fs, order[p]))
  {
    NeighboursIn(fs, head, tail, order, p);
    forall g | 0 <= g < |fs| && g != order[p]
      ensures Unlink(fs, order[p])[g] == fs[g].(prev := Unlink(fs, order[p])[g].prev, next := Unlink(fs, order[p])[g].next)
    {
      UnlinkFields(fs, order[p], g);
    }
  }

  lemma UnlinkOk(fs: seq<Frame>, head: nat, tail: nat, order: seq<nat>, p: nat)
    requires Linked(fs, head, tail, order) && p < |order|
    ensures NeighboursOk(fs, order, p)
    ensures var f := fs[order[p]];
            Linked(Unlink(fs, order[p]), if f.prev == NONE then f.next else head, if f.next == NONE then f.prev else tail, Cut(order, p))
    ensures SameButLinks(fs, Unlink(fs, order[p]))
  {
    UnlinkSame(fs, head, tail, order, p);
    UnlinkEnds(fs, head, tail, order, p);
    CutAt(order, p);
    var r, gs := Cut(order, p), Unlink(fs, order[p]);
    forall i | 0 <= i < |r| ensures r[i] < |gs| && LinkAt(gs, r, i) {
      UnlinkLinks(fs, head, tail, order, p, i);
    }
  }

  // The array after _lru_push_front.

  ghost function Push(fs: seq<Frame>, head: nat, f: nat): seq<Frame>
    requires f < |fs| && (head != NONE ==> head < |fs|)
  {
    var a := fs[f := fs[f].(prev := NONE, next := head)];
    if head != NONE then a[head := a[head].(prev := f)] else a
  }

  lemma PushFields(fs: seq<Frame>, head: nat, f: nat, g: nat)
    requires f < |fs| < NONE && (head != NONE ==> head < |fs|) && head != f && g < |fs|
    ensures |Push(fs, head, f)| == |fs|
    ensures Push(fs, head, f)[g] == if g == f then fs[f].(prev := NONE, next := head)
                                    else fs[g].(prev := if g == head then f else fs[g].prev)
  {
  }

  lemma PushAt(fs: seq<Frame>, head: nat, tail: nat, order: seq<nat>, f: nat, i: nat)
    requires Linked(fs, head, tail, order) && f < |fs| && f !in order && i <= |order|
    ensures head != NONE ==> head < |fs|
    ensures var r, gs := [f] + order, Push(fs, head, f);
            r[i] < |fs| == |gs| && LinkAt(gs, r, i)
  {
    var r := [f] + order;
    assert order != [] ==> order[0] in order;
    if i > 0 {
      assert r[i] == order[i - 1] && order[i - 1] in order;
    }
    PushFields(fs, head, f, r[i]);
    if i > 0 {
      assert LinkAt(fs, order, i - 1);
      assert i > 1 ==> order[0] != order[i - 1];
    }
  }

  lemma DistinctCons(f: nat, order: seq<nat>)
    requires Distinct(order) && f !in order
    ensures Distinct([f] + order) && forall x :: x in [f] + order <==> x == f || x in order
  {
    var r := [f] + order;
    forall i, j | 0 <= i < j < |r| ensures r[i] != r[j] {
      assert r[j] == order[j - 1] && order[j - 1] in order;
      assert i > 0 ==> r[i] == order[i - 1];
    }
  }

  lemma PushOk(fs: seq<Frame>, head: nat, tail: nat, order: seq<nat>, f: nat)
    requires Linked(fs, head, tail, order) && f < |fs| && f !in order
    ensures head != NONE ==> head < |fs|
    ensures Linked(Push(fs, head, f), f, if tail == NONE then f else tail, [f] + order)
    ensures SameButLinks(fs, Push(fs, head, f))
  {
    var r, gs := [f] + order, Push(fs, head, f);
    DistinctCons(f, order);
    assert order != [] ==> order[0] in order;
    forall i | 0 <= i < |r| ensures r[i] < |gs| && LinkAt(gs, r, i) {
      PushAt(fs, head, tail, order, f, i);
    }
    forall g | 0 <= g < |fs| ensures gs[g] == fs[g].(prev := gs[g].prev, next := gs[g].next) {
      PushFields(fs, head, f, g);
    }
  }
}
