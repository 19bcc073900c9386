// Saving an index and opening it again: pre-order serialisation, reading back, and relinking the leaf chain.
module BTreeFile {
  import opened BTreeModel
  import opened BTreeHistory
  import opened BTree
  import opened BTreeIndex
  import opened Bytes
  import opened Common

  const MAGIC := 0x4250_5400

  // ---------------------------------------------------------------------------
  // The format
  // ---------------------------------------------------------------------------

  ghost predicate KeysFit(ks: seq<Key>) {
    forall i :: 0 <= i < |ks| ==> 0 <= ks[i] < KEY_LIMIT
  }

  ghost predicate PtrFits(v: RecordPtr) {
    0 <= v.pageId < 0x1_0000_0000 && 0 <= v.slotId < 0x1_0000
  }

  ghost predicate ValsFit(vs: seq<RecordPtr>) {
    forall i :: 0 <= i < |vs| ==> PtrFits(vs[i])
  }

  /** Every number in the tree fits its field on disk. */
  ghost predicate Fits(t: Tree)
    decreases t
  {
    && KeysFit(t.keys) && |t.keys| < 0x8000_0000
    && match t
       case Leaf(_, vals) => ValsFit(vals)
       case Inner(_, kids) => forall i :: 0 <= i < |kids| ==> Fits(kids[i])
  }

  ghost function KeyBytes(ks: seq<Key>): seq<Byte>
    requires KeysFit(ks)
  {
    if ks == [] then [] else U32(ks[0]) + KeyBytes(ks[1..])
  }

  /** A record_ptr_t: page, slot, and two bytes of padding. */
  ghost function PtrBytes(v: RecordPtr): (r: seq<Byte>)
    requires PtrFits(v)
    ensures |r| == 8
  {
    U32(v.pageId) + U16(v.slotId) + [0, 0]
  }

  ghost function ValBytes(vs: seq<RecordPtr>): seq<Byte>
    requires ValsFit(vs)
  {
    if vs == [] then [] else PtrBytes(vs[0]) + ValBytes(vs[1..])
  }

  ghost function NodeBytes(t: Tree): seq<Byte>
    requires Fits(t)
    decreases t
  {
    U32(if t.Leaf? then 1 else 0) + U32(|t.keys|) + KeyBytes(t.keys)
    + match t
      case Leaf(_, vals) => ValBytes(vals)
      case Inner(_, kids) => AllNodeBytes(kids)
  }

  ghost predicate AllFit(ts: seq<Tree>) {
    forall i :: 0 <= i < |ts| ==> Fits(ts[i])
  }

  ghost function AllNodeBytes(ts: seq<Tree>): seq<Byte>
    requires AllFit(ts)
    decreases ts
  {
    if ts == [] then [] else NodeBytes(ts[0]) + AllNodeBytes(ts[1..])
  }

  lemma {:induction false} KeyBytesAppend(ks: seq<Key>, k: Key)
    requires KeysFit(ks) && 0 <= k < KEY_LIMIT
    ensures KeyBytes(ks + [k]) == KeyBytes(ks) + U32(k)
    decreases |ks|
  {
    if ks == [] {
      assert [k][1..] == [];
      assert ks + [k] == [k];
    } else {
      assert (ks + [k])[1..] == ks[1..] + [k];
      KeyBytesAppend(ks[1..], k);
    }
  }

  lemma {:induction false} ValBytesAppend(vs: seq<RecordPtr>, v: RecordPtr)
    requires ValsFit(vs) && PtrFits(v)
    ensures ValsFit(vs + [v])
    ensures ValBytes(vs + [v]) == ValBytes(vs) + PtrBytes(v)
    decreases |vs|
  {
    if vs == [] {
      assert [v][1..] == [];
      assert vs + [v] == [v];
    } else {
      assert (vs + [v])[1..] == vs[1..] + [v];
      ValBytesAppend(vs[1..], v);
    }
  }

  lemma {:induction false} AllNodeBytesAppend(ts: seq<Tree>, t: Tree)
    requires Fits(t) && AllFit(ts)
    ensures AllFit(ts + [t]) && AllNodeBytes(ts + [t]) == AllNodeBytes(ts) + NodeBytes(t)
    decreases |ts|
  {
    var all := ts + [t];
    if ts == [] {
      assert all == [t] && all[1..] == [];
    } else {
      AllNodeBytesAppend(ts[1..], t);
      assert all[0] == ts[0] && all[1..] == ts[1..] + [t];
      AppendAssoc(NodeBytes(ts[0]), AllNodeBytes(ts[1..]), NodeBytes(t));
    }
  }

  // ---------------------------------------------------------------------------
  // The format is unambiguous
  // ---------------------------------------------------------------------------

  lemma CutFront<T>(a: seq<T>, b: seq<T>, c: seq<T>, d: seq<T>)
    requires |a| == |c| && a + b == c + d
    ensures a == c && b == d
  {
    assert a == (a + b)[..|a|] && c == (c + d)[..|a|];
    assert b == (a + b)[|a|..] && d == (c + d)[|a|..];
  }

  lemma SameU32(x: nat, y: nat, a: seq<Byte>, b: seq<Byte>)
    requires x < 0x1_0000_0000 && y < 0x1_0000_0000 && U32(x) + a == U32(y) + b
    ensures x == y && a == b
  {
    Get32U32(x, a);
    Get32U32(y, b);
  }

  lemma {:induction false} SameKeys(ks: seq<Key>, ls: seq<Key>, a: seq<Byte>, b: seq<Byte>)
    requires |ks| == |ls| && KeysFit(ks) && KeysFit(ls) && KeyBytes(ks) + a == KeyBytes(ls) + b
    ensures ks == ls && a == b
    decreases |ks|
  {
    if ks != [] {
      AppendAssoc(U32(ks[0]), KeyBytes(ks[1..]), a);
      AppendAssoc(U32(ls[0]), KeyBytes(ls[1..]), b);
      SameU32(ks[0], ls[0], KeyBytes(ks[1..]) + a, KeyBytes(ls[1..]) + b);
      SameKeys(ks[1..], ls[1..], a, b);
      assert ks == [ks[0]] + ks[1..] && ls == [ls[0]] + ls[1..];
    } else {
      assert [] + a == a && [] + b == b;
    }
  }

  lemma SamePtr(v: RecordPtr, w: RecordPtr)
    requires PtrFits(v) && PtrFits(w) && PtrBytes(v) == PtrBytes(w)
    ensures v == w
  {
    AppendAssoc(U32(v.pageId), U16(v.slotId), [0, 0]);
    AppendAssoc(U32(w.pageId), U16(w.slotId), [0, 0]);
    SameU32(v.pageId, w.pageId, U16(v.slotId) + [0, 0], U16(w.slotId) + [0, 0]);
    Get16U16(v.slotId, [0, 0]);
    Get16U16(w.slotId, [0, 0]);
  }

  lemma {:induction false} SameVals(vs: seq<RecordPtr>, ws: seq<RecordPtr>, a: seq<Byte>, b: seq<Byte>)
    requires |vs| == |ws| && ValsFit(vs) && ValsFit(ws) && ValBytes(vs) + a == ValBytes(ws) + b
    ensures vs == ws && a == b
    decreases |vs|
  {
    if vs != [] {
      AppendAssoc(PtrBytes(vs[0]), ValBytes(vs[1..]), a);
      AppendAssoc(PtrBytes(ws[0]), ValBytes(ws[1..]), b);
      CutFront(PtrBytes(vs[0]), ValBytes(vs[1..]) + a, PtrBytes(ws[0]), ValBytes(ws[1..]) + b);
      SamePtr(vs[0], ws[0]);
      SameVals(vs[1..], ws[1..], a, b);
      assert vs == [vs[0]] + vs[1..] && ws == [ws[0]] + ws[1..];
    } else {
      assert [] + a == a && [] + b == b;
    }
  }

  ghost function Body(t: Tree): seq<Byte>
    requires Fits(t)
  {
    match t
    case Leaf(_, vals) => ValBytes(vals)
    case Inner(_, kids) => AllNodeBytes(kids)
  }

  lemma NodeBytesParts(t: Tree, rest: seq<Byte>)
    requires Fits(t)
    ensures NodeBytes(t) + rest
         == U32(if t.Leaf? then 1 else 0) + (U32(|t.keys|) + (KeyBytes(t.keys) + (Body(t) + rest)))
  {
    var a, b, c, d := U32(if t.Leaf? then 1 else 0), U32(|t.keys|), KeyBytes(t.keys), Body(t);
    assert NodeBytes(t) == a + b + c + d;
    AppendAssoc(a + b + c, d, rest);
    AppendAssoc(a + b, c, d + rest);
    AppendAssoc(a, b, c + (d + rest));
  }

  /** No two trees can be read from the same bytes, and a reader always knows where a node ends. */
  lemma {:induction false} SameNode(t: Tree, u: Tree, h: nat, g: nat, order: nat, a: seq<Byte>, b: seq<Byte>)
    requires Shaped(t, h, order) && Shaped(u, g, order) && Fits(t) && Fits(u)
    requires NodeBytes(t) + a == NodeBytes(u) + b
    ensures t == u && a == b
    decreases t, 1
  {
    NodeBytesParts(t, a);
    NodeBytesParts(u, b);
    var ka, kb := KeyBytes(t.keys) + (Body(t) + a), KeyBytes(u.keys) + (Body(u) + b);
    SameU32(if t.Leaf? then 1 else 0, if u.Leaf? then 1 else 0, U32(|t.keys|) + ka, U32(|u.keys|) + kb);
    SameU32(|t.keys|, |u.keys|, ka, kb);
    SameKeys(t.keys, u.keys, Body(t) + a, Body(u) + b);
    match t
    case Leaf(_, vals) => SameVals(vals, u.vals, a, b);
    case Inner(_, kids) => SameNodes(kids, u.kids, h - 1, g - 1, order, a, b);
  }

  lemma {:induction false} SameNodes(ts: seq<Tree>, us: seq<Tree>, h: nat, g: nat, order: nat, a: seq<Byte>, b: seq<Byte>)
    requires |ts| == |us|
    requires forall i :: 0 <= i < |ts| ==> Shaped(ts[i], h, order) && Fits(ts[i])
    requires forall i :: 0 <= i < |us| ==> Shaped(us[i], g, order) && Fits(us[i])
    requires AllNodeBytes(ts) + a == AllNodeBytes(us) + b
    ensures ts == us && a == b
    decreases ts, 0
  {
    if ts != [] {
      AppendAssoc(NodeBytes(ts[0]), AllNodeBytes(ts[1..]), a);
      AppendAssoc(NodeBytes(us[0]), AllNodeBytes(us[1..]), b);
      SameNode(ts[0], us[0], h, g, order, AllNodeBytes(ts[1..]) + a, AllNodeBytes(us[1..]) + b);
      SameNodes(ts[1..], us[1..], h, g, order, a, b);
      assert ts == [ts[0]] + ts[1..] && us == [us[0]] + us[1..];
    } else {
      assert [] + a == a && [] + b == b;
    }
  }

  // ---------------------------------------------------------------------------
  // Writing
  // ---------------------------------------------------------------------------

  /** A stdio stream: writes append, reads advance. */
  class File {
    var bytes: seq<Byte>
    var pos: nat

    constructor ()
      ensures bytes == [] && pos == 0
    {
      bytes, pos := [], 0;
    }

    /** fwrite of the byte image `b`. */
    method Write(b: seq<Byte>)
      modifies this
      ensures bytes == old(bytes) + b && pos == old(pos)
    {
      bytes := bytes + b;
    }

    /** fread of one 32-bit number. */
    method Read32(ghost x: nat, ghost rest: seq<Byte>) returns (y: nat)
      requires x < 0x1_0000_0000 && pos <= |bytes| && bytes[pos..] == U32(x) + rest
      modifies this`pos
      ensures y == x && pos <= |bytes| && bytes[pos..] == rest
    {
      Get32U32(x, rest);
      y := Get32(bytes[pos..]);
      pos := pos + 4;
    }

    method Read16(ghost x: nat, ghost rest: seq<Byte>) returns (y: nat)
      requires x < 0x1_0000 && pos <= |bytes| && bytes[pos..] == U16(x) + rest
      modifies this`pos
      ensures y == x && pos <= |bytes| && bytes[pos..] == rest
    {
      Get16U16(x, rest);
      y := Get16(bytes[pos..]);
      pos := pos + 2;
    }
  }

  method WriteKeys(fp: File, n: Node, ghost ks: seq<Key>)
    requires n.numKeys == |ks| <= n.keys.Length && n.keys[..|ks|] == ks && KeysFit(ks)
    modifies fp
    ensures fp.bytes == old(fp.bytes) + KeyBytes(ks) && fp.pos == old(fp.pos)
  {
    var i := 0;
    while i < n.numKeys
      invariant i <= n.numKeys
      invariant fp.bytes == old(fp.bytes) + KeyBytes(ks[..i]) && fp.pos == old(fp.pos)
    {
      assert n.keys[i] == ks[i] && ks[..i + 1] == ks[..i] + [ks[i]];
      KeyBytesAppend(ks[..i], ks[i]);
      AppendAssoc(old(fp.bytes), KeyBytes(ks[..i]), U32(ks[i]));
      fp.Write(U32(n.keys[i]));
      i := i + 1;
    }
    assert ks[..i] == ks;
  }

  method WriteValues(fp: File, n: Node, ghost vs: seq<RecordPtr>)
    requires n.numKeys == |vs| <= n.values.Length && n.values[..|vs|] == vs && ValsFit(vs)
    modifies fp
    ensures fp.bytes == old(fp.bytes) + ValBytes(vs) && fp.pos == old(fp.pos)
  {
    var i := 0;
    while i < n.numKeys
      invariant i <= n.numKeys
      invariant fp.bytes == old(fp.bytes) + ValBytes(vs[..i]) && fp.pos == old(fp.pos)
    {
      assert n.values[i] == vs[i] && vs[..i + 1] == vs[..i] + [vs[i]];
      ValBytesAppend(vs[..i], vs[i]);
      AppendAssoc(old(fp.bytes), ValBytes(vs[..i]), PtrBytes(vs[i]));
      fp.Write(U32(n.values[i].pageId) + U16(n.values[i].slotId) + [0, 0]);
      i := i + 1;
    }
    assert vs[..i] == vs;
  }

  /** write_node */
  method WriteNode(fp: File, n: Node, order: nat, ghost s: Shape, ghost t: Tree, ghost all: set<object>)
    requires s.n == n && Rep(s, t, order) && Objs(s) <= all && fp !in all && Fits(t)
    modifies fp
    ensures fp.bytes == old(fp.bytes) + NodeBytes(t) && fp.pos == old(fp.pos)
    decreases t, 1
  {
    ghost var start := fp.bytes;
    ghost var head := U32(if t.Leaf? then 1 else 0) + U32(|t.keys|);
    fp.Write(U32(if n.isLeaf then 1 else 0));
    fp.Write(U32(n.numKeys));
    AppendAssoc(start, U32(if t.Leaf? then 1 else 0), U32(|t.keys|));
    WriteKeys(fp, n, t.keys);
    AppendAssoc(start, head, KeyBytes(t.keys));
    if n.isLeaf {
      WriteValues(fp, n, t.vals);
    } else {
      WriteChildren(fp, n, order, s.kids, t, all);
    }
    AppendAssoc(start, head + KeyBytes(t.keys), Body(t));
  }

  lemma ChildrenStep(start: seq<Byte>, ts: seq<Tree>, i: nat)
    requires i < |ts| && AllFit(ts)
    ensures start + AllNodeBytes(ts[..i]) + NodeBytes(ts[i]) == start + AllNodeBytes(ts[..i + 1])
  {
    AllNodeBytesAppend(ts[..i], ts[i]);
    assert ts[..i + 1] == ts[..i] + [ts[i]];
    AppendAssoc(start, AllNodeBytes(ts[..i]), NodeBytes(ts[i]));
  }

  method WriteChild(fp: File, n: Node, i: nat, order: nat, ghost kids: seq<Shape>, ghost t: Tree, ghost all: set<object>)
    requires Rep(InnerS(n, kids), t, order) && Objs(InnerS(n, kids)) <= all && fp !in all && Fits(t) && i < |kids|
    modifies fp
    ensures Rep(InnerS(n, kids), t, order) == true
    ensures fp.bytes == old(fp.bytes) + NodeBytes(t.kids[i]) && fp.pos == old(fp.pos)
    decreases t, 0, 0
  {
    ChildRep(n, kids, t, order, i);
    KidIn(kids, i);
    WriteNode(fp, n.children[i], order, kids[i], t.kids[i], all);
  }

  method WriteChildren(fp: File, n: Node, order: nat, ghost kids: seq<Shape>, ghost t: Tree, ghost all: set<object>)
    requires Rep(InnerS(n, kids), t, order) && Objs(InnerS(n, kids)) <= all && fp !in all && Fits(t)
    modifies fp
    ensures fp.bytes == old(fp.bytes) + Body(t) && fp.pos == old(fp.pos)
    decreases t, 0, 1
  {
    var i := 0;
    while i <= n.numKeys
      invariant i <= n.numKeys + 1 == |kids| == |t.kids|
      invariant Rep(InnerS(n, kids), t, order) == true
      invariant fp.bytes == old(fp.bytes) + AllNodeBytes(t.kids[..i]) && fp.pos == old(fp.pos)
    {
      ChildrenStep(old(fp.bytes), t.kids, i);
      WriteChild(fp, n, i, order, kids, t, all);
      i := i + 1;
    }
    assert t.kids[..i] == t.kids;
  }

  // ---------------------------------------------------------------------------
  // Reading
  // ---------------------------------------------------------------------------

  method ReadKeys(fp: File, n: Node, count: nat, ghost ks: seq<Key>, ghost rest: seq<Byte>)
    requires count == |ks| <= n.keys.Length && KeysFit(ks)
    requires fp.pos <= |fp.bytes| && fp.bytes[fp.pos..] == KeyBytes(ks) + rest
    modifies fp`pos, n.keys
    ensures n.keys[..count] == ks && fp.pos <= |fp.bytes| && fp.bytes[fp.pos..] == rest
  {
    var i := 0;
    while i < count
      invariant i <= count && n.keys[..i] == ks[..i]
      invariant fp.pos <= |fp.bytes| && fp.bytes[fp.pos..] == KeyBytes(ks[i..]) + rest
    {
      assert ks[i..][1..] == ks[i + 1..];
      AppendAssoc(U32(ks[i]), KeyBytes(ks[i + 1..]), rest);
      var k := fp.Read32(ks[i], KeyBytes(ks[i + 1..]) + rest);
      n.keys[i] := k;
      assert n.keys[..i + 1] == n.keys[..i] + [k] == ks[..i] + [ks[i]] == ks[..i + 1];
      i := i + 1;
    }
    assert ks[..count] == ks && KeyBytes(ks[i..]) + rest == rest;
  }

  method ReadPtr(fp: File, ghost v: RecordPtr, ghost rest: seq<Byte>) returns (w: RecordPtr)
    requires PtrFits(v) && fp.pos <= |fp.bytes| && fp.bytes[fp.pos..] == PtrBytes(v) + rest
    modifies fp`pos
    ensures w == v && fp.pos <= |fp.bytes| && fp.bytes[fp.pos..] == rest
  {
    AppendAssoc(U32(v.pageId) + U16(v.slotId), [0, 0], rest);
    AppendAssoc(U32(v.pageId), U16(v.slotId), [0, 0] + rest);
    var page := fp.Read32(v.pageId, U16(v.slotId) + ([0, 0] + rest));
    var slot := fp.Read16(v.slotId, [0, 0] + rest);
    fp.pos := fp.pos + 2;
    assert fp.bytes[fp.pos..] == ([0, 0] + rest)[2..] == rest;
    w := RecordPtr(page, slot);
  }

  method ReadValues(fp: File, n: Node, count: nat, ghost vs: seq<RecordPtr>, ghost rest: seq<Byte>)
    requires count == |vs| <= n.values.Length && ValsFit(vs)
    requires fp.pos <= |fp.bytes| && fp.bytes[fp.pos..] == ValBytes(vs) + rest
    modifies fp`pos, n.values
    ensures n.values[..count] == vs && fp.pos <= |fp.bytes| && fp.bytes[fp.pos..] == rest
  {
    var i := 0;
    while i < count
      invariant i <= count && n.values[..i] == vs[..i]
      invariant fp.pos <= |fp.bytes| && fp.bytes[fp.pos..] == ValBytes(vs[i..]) + rest
    {
      assert vs[i..][1..] == vs[i + 1..];
      AppendAssoc(PtrBytes(vs[i]), ValBytes(vs[i + 1..]), rest);
      var v := ReadPtr(fp, vs[i], ValBytes(vs[i + 1..]) + rest);
      n.values[i] := v;
      assert n.values[..i + 1] == n.values[..i] + [v] == vs[..i] + [vs[i]] == vs[..i + 1];
      i := i + 1;
    }
    assert vs[..count] == vs && ValBytes(vs[i..]) + rest == rest;
  }

  /** Subtrees `kids`, apart from each other, that represent `ts`. */
  ghost predicate Grove(kids: seq<Shape>, ts: seq<Tree>, order: nat)
    reads ObjsAll(kids)
  {
    && KidsRep(kids, ts, order) && Apart(kids)
    && forall i :: 0 <= i < |kids| ==> Separate(kids[i])
  }

  lemma GroveGrows(kids: seq<Shape>, ts: seq<Tree>, order: nat, c: Shape, t: Tree)
    requires Grove(kids, ts, order) && Rep(c, t, order) && Separate(c) && ObjsAll(kids) !! Objs(c)
    ensures Grove(kids + [c], ts + [t], order)
    ensures ObjsAll(kids + [c]) == ObjsAll(kids) + Objs(c)
    ensures Roots(kids + [c]) == Roots(kids) + [c.n]
  {
    ObjsAppend(kids, [c]);
    assert [c][1..] == [];
    KidObjs(kids);
  }

  lemma GroveTree(n: Node, kids: seq<Shape>, keys: seq<Key>, ts: seq<Tree>, order: nat)
    requires Grove(kids, ts, order) && Own(n) !! ObjsAll(kids)
    requires NodeRep(n, false, keys, order) && n.children.Length == order + 1
    requires |kids| == |keys| + 1 && n.children[..|kids|] == Roots(kids)
    ensures Rep(InnerS(n, kids), Inner(keys, ts), order) && Separate(InnerS(n, kids))
  {
    FoldInner(n, kids, keys, ts, order);
    KidObjs(kids);
  }

  lemma NextChild(ts: seq<Tree>, i: nat, rest: seq<Byte>)
    requires i < |ts| && AllFit(ts)
    ensures AllNodeBytes(ts[i..]) + rest == NodeBytes(ts[i]) + (AllNodeBytes(ts[i + 1..]) + rest)
  {
    assert ts[i..][0] == ts[i] && ts[i..][1..] == ts[i + 1..];
    AppendAssoc(NodeBytes(ts[i]), AllNodeBytes(ts[i + 1..]), rest);
  }

  method HangChild(n: Node, i: nat, child: Node, order: nat, ghost kids: seq<Shape>, ghost ts: seq<Tree>, ghost c: Shape)
    requires i < |ts| && n.children.Length == order + 1 && i <= order && !n.isLeaf && c.n == child
    requires |kids| == i && Grove(kids, ts[..i], order) && Own(n) !! ObjsAll(kids) && n.children[..i] == Roots(kids)
    requires Rep(c, ts[i], order) && Separate(c) && ObjsAll(kids) + Own(n) !! Objs(c)
    modifies n.children
    ensures Grove(kids + [c], ts[..i + 1], order) && n.children[..i + 1] == Roots(kids + [c])
    ensures ObjsAll(kids + [c]) == ObjsAll(kids) + Objs(c)
  {
    GroveGrows(kids, ts[..i], order, c, ts[i]);
    assert ts[..i + 1] == ts[..i] + [ts[i]];
    n.children[i] := child;
    assert n.children[..i + 1] == n.children[..i] + [child];
  }

  method ReadChild(fp: File, n: Node, i: nat, order: nat, ghost kids: seq<Shape>, ghost t: Tree, ghost h: nat,
                   ghost rest: seq<Byte>, ghost all: set<object>)
    returns (ghost kids': seq<Shape>)
    requires t.Inner? && Shaped(t, h, order) && Fits(t) && i < |t.kids| && n.children.Length == order + 1 && !n.isLeaf
    requires |kids| == i && Grove(kids, t.kids[..i], order) && Own(n) !! ObjsAll(kids) && n.children[..i] == Roots(kids)
    requires fp.pos <= |fp.bytes| && fp.bytes[fp.pos..] == AllNodeBytes(t.kids[i..]) + rest
    requires fp !in ObjsAll(kids) && ObjsAll(kids) <= all
    modifies fp`pos, n.children
    ensures |kids'| == i + 1 && Grove(kids', t.kids[..i + 1], order) == true && Own(n) !! ObjsAll(kids')
    ensures n.children[..i + 1] == Roots(kids')
    ensures forall o :: o in ObjsAll(kids') ==> o in ObjsAll(kids) || fresh(o)
    ensures fp.pos <= |fp.bytes| && fp.bytes[fp.pos..] == AllNodeBytes(t.kids[i + 1..]) + rest
    decreases t, 0, 0
  {
    NextChild(t.kids, i, rest);
    var child;
    ghost var c;
    child, c := ReadNode(fp, order, t.kids[i], h - 1, AllNodeBytes(t.kids[i + 1..]) + rest);
    HangChild(n, i, child, order, kids, t.kids, c);
    kids' := kids + [c];
  }

  method ReadChildren(fp: File, n: Node, order: nat, ghost t: Tree, ghost h: nat, ghost rest: seq<Byte>)
    returns (ghost kids: seq<Shape>)
    requires t.Inner? && Shaped(t, h, order) && Fits(t) && n.children.Length == order + 1 && n.numKeys == |t.keys|
    requires !n.isLeaf && fp.pos <= |fp.bytes| && fp.bytes[fp.pos..] == Body(t) + rest
    modifies fp`pos, n.children
    ensures Grove(kids, t.kids, order) && Own(n) !! ObjsAll(kids) && fresh(ObjsAll(kids))
    ensures |kids| == |t.kids| && n.children[..|kids|] == Roots(kids)
    ensures fp.pos <= |fp.bytes| && fp.bytes[fp.pos..] == rest
    decreases t, 0, 1
  {
    var i := 0;
    kids := [];
    assert t.kids[0..] == t.kids;
    while i <= n.numKeys
      invariant i <= n.numKeys + 1 == |t.kids| && |kids| == i
      invariant Grove(kids, t.kids[..i], order) == true && Own(n) !! ObjsAll(kids) && fresh(ObjsAll(kids))
      invariant n.children[..i] == Roots(kids)
      invariant fp.pos <= |fp.bytes| && fp.bytes[fp.pos..] == AllNodeBytes(t.kids[i..]) + rest
    {
      kids := ReadChild(fp, n, i, order, kids, t, h, rest, ObjsAll(kids));
      i := i + 1;
    }
    assert t.kids[..i] == t.kids && [] + rest == rest;
  }

  /** read_node, on the image of a node: it takes exactly that image and builds the same node again. */
  method ReadNode(fp: File, order: nat, ghost t: Tree, ghost h: nat, ghost rest: seq<Byte>)
    returns (n: Node, ghost s: Shape)
    requires Shaped(t, h, order) && Fits(t)
    requires fp.pos <= |fp.bytes| && fp.bytes[fp.pos..] == NodeBytes(t) + rest
    modifies fp`pos
    ensures s.n == n && Rep(s, t, order) && Separate(s) && fresh(Objs(s))
    ensures fp.pos <= |fp.bytes| && fp.bytes[fp.pos..] == rest
    decreases t, 1
  {
    NodeBytesParts(t, rest);
    var leaf := fp.Read32(if t.Leaf? then 1 else 0, U32(|t.keys|) + (KeyBytes(t.keys) + (Body(t) + rest)));
    var count := fp.Read32(|t.keys|, KeyBytes(t.keys) + (Body(t) + rest));
    n := new Node(order, leaf != 0);
    n.numKeys := count;
    ReadKeys(fp, n, count, t.keys, Body(t) + rest);
    if n.isLeaf {
      ReadValues(fp, n, count, t.vals, rest);
      s := LeafS(n);
    } else {
      ghost var kids := ReadChildren(fp, n, order, t, h, rest);
      s := InnerS(n, kids);
      GroveTree(n, kids, t.keys, t.kids, order);
    }
  }

  // ---------------------------------------------------------------------------
  // Relinking the leaves
  // ---------------------------------------------------------------------------

  ghost function Sizes(all: set<object>): map<Node, nat>
    reads all
  {
    map o: Node | o in all :: o.numKeys
  }

  ghost function Arrays(s: Shape): (r: set<object>)
    ensures r <= Objs(s) && forall o :: o in r ==> !(o is Node)
    decreases s
  {
    match s
    case LeafS(n) => {n.keys, Payload(n)}
    case InnerS(n, kids) => {n.keys, Payload(n)} + AllArrays(kids)
  }

  ghost function AllArrays(ss: seq<Shape>): (r: set<object>)
    ensures r <= ObjsAll(ss) && forall o :: o in r ==> !(o is Node)
    decreases ss
  {
    if ss == [] then {} else Arrays(ss[0]) + AllArrays(ss[1..])
  }

  lemma {:induction false} KidArrays(kids: seq<Shape>)
    ensures forall j :: 0 <= j < |kids| ==> Arrays(kids[j]) <= AllArrays(kids)
    decreases |kids|
  {
    if kids != [] {
      KidArrays(kids[1..]);
      forall j | 0 < j < |kids| ensures Arrays(kids[j]) <= AllArrays(kids) {
        assert kids[j] == kids[1..][j - 1];
      }
    }
  }

  /** Rep with the node sizes taken from `m`: it depends on arrays alone, so it outlives changes to `next`. */
  ghost predicate RepWith(m: map<Node, nat>, s: Shape, t: Tree, order: nat)
    reads Arrays(s)
    decreases s
  {
    var n := s.n;
    && n in m && n.keys.Length == order && |t.keys| <= order && m[n] == |t.keys| && n.keys[..|t.keys|] == t.keys
    && n.keys as object != Payload(n)
    && match s
       case LeafS(_) =>
         && t.Leaf? && n.isLeaf
         && n.values.Length == order && |t.vals| == |t.keys| && n.values[..|t.vals|] == t.vals
       case InnerS(_, kids) =>
         KidArrays(kids);
         && t.Inner? && !n.isLeaf && n.children.Length == order + 1 && |t.kids| == |t.keys| + 1 == |kids|
         && n.children[..|kids|] == Roots(kids)
         && forall i :: 0 <= i < |kids| ==> RepWith(m, kids[i], t.kids[i], order)
  }

  lemma {:induction false} RepBySizes(s: Shape, t: Tree, order: nat, all: set<object>)
    requires Objs(s) <= all
    ensures RepWith(Sizes(all), s, t, order) <==> Rep(s, t, order)
    decreases s
  {
    if s.InnerS? && t.Inner? && |t.kids| == |s.kids| {
      KidObjs(s.kids);
      forall i | 0 <= i < |s.kids|
        ensures RepWith(Sizes(all), s.kids[i], t.kids[i], order) <==> Rep(s.kids[i], t.kids[i], order)
      {
        RepBySizes(s.kids[i], t.kids[i], order, all);
      }
    }
  }

  /** The effect of visiting leaves `ls` with link_leaves when `prev` was the last leaf before them. */
  ghost function LinkIn(m: map<Node, Node?>, prev: Node?, ls: seq<Node>): map<Node, Node?>
    decreases |ls|
  {
    if ls == [] then m else
      LinkIn((if prev == null then m else m[prev := ls[0]])[ls[0] := null], ls[0], ls[1..])
  }

  function LastOf(prev: Node?, ls: seq<Node>): Node? {
    if ls == [] then prev else ls[|ls| - 1]
  }

  lemma {:induction false} LinkInAppend(m: map<Node, Node?>, prev: Node?, a: seq<Node>, b: seq<Node>)
    ensures LinkIn(m, prev, a + b) == LinkIn(LinkIn(m, prev, a), LastOf(prev, a), b)
    ensures LastOf(prev, a + b) == LastOf(LastOf(prev, a), b)
    decreases |a|
  {
    if a == [] {
      assert a + b == b;
    } else {
      assert (a + b)[1..] == a[1..] + b;
      LinkInAppend((if prev == null then m else m[prev := a[0]])[a[0] := null], a[0], a[1..], b);
    }
  }

  lemma {:induction false} LinkInFrame(m: map<Node, Node?>, prev: Node?, ls: seq<Node>, n: Node)
    requires n in m && n != prev && n !in ls
    ensures n in LinkIn(m, prev, ls) && LinkIn(m, prev, ls)[n] == m[n]
    decreases |ls|
  {
    if ls != [] {
      assert ls[0] in ls;
      LinkInFrame((if prev == null then m else m[prev := ls[0]])[ls[0] := null], ls[0], ls[1..], n);
    }
  }

  /** Visiting distinct leaves in order, starting with no predecessor, links exactly them. */
  lemma {:induction false} LinkInLinks(m: map<Node, Node?>, prev: Node?, ls: seq<Node>)
    requires Distinct(ls) && prev !in ls
    ensures Linked(LinkIn(m, prev, ls), ls)
    ensures prev != null && ls != [] ==> prev in LinkIn(m, prev, ls) && LinkIn(m, prev, ls)[prev] == ls[0]
    decreases |ls|
  {
    if ls != [] {
      var m', rest := (if prev == null then m else m[prev := ls[0]])[ls[0] := null], ls[1..];
      assert forall i :: 0 <= i < |rest| ==> rest[i] == ls[i + 1];
      LinkInLinks(m', ls[0], rest);
      var r := LinkIn(m', ls[0], rest);
      if prev != null {
        LinkInFrame(m', ls[0], rest, prev);
      }
      forall i | 0 <= i < |ls| ensures ls[i] in r && r[ls[i]] == After(ls, i) {
        if i > 0 {
          assert ls[i] == rest[i - 1];
        }
      }
    }
  }

  ghost function NodesIn(all: set<object>): set<Node> {
    set o: Node | o in all
  }

  /** link_leaves */
  method LinkLeaves(n: Node, prev: Node?, order: nat, ghost m: map<Node, nat>, ghost s: Shape, ghost t: Tree,
                    ghost all: set<object>)
    returns (last: Node?)
    requires s.n == n && RepWith(m, s, t, order) && Objs(s) <= all && Sizes(all) == m
    requires prev != null ==> prev in all
    modifies NodesIn(all)`next
    ensures NextOf(all) == LinkIn(old(NextOf(all)), prev, Leaves(s)) && last == LastOf(prev, Leaves(s))
    ensures Sizes(all) == m
    ensures last != null ==> last in all
    decreases t, 1
  {
    if n.isLeaf {
      if prev != null {
        prev.next := n;
      }
      n.next := null;
      last := n;
      assert Leaves(s)[1..] == [];
    } else {
      last := LinkKids(n, prev, order, m, s.kids, t, all);
    }
  }

  lemma ChildWith(m: map<Node, nat>, n: Node, kids: seq<Shape>, t: Tree, order: nat, i: nat)
    requires RepWith(m, InnerS(n, kids), t, order) && i < |kids|
    ensures t.Inner? && |t.kids| == |kids| && RepWith(m, kids[i], t.kids[i], order)
    ensures i < n.children.Length && n.children[i] == kids[i].n
  {
    assert n.children[i] == n.children[..|kids|][i] == Roots(kids)[i];
  }

  lemma LeavesTake(kids: seq<Shape>, i: nat)
    requires i < |kids|
    ensures LeavesAll(kids[..i + 1]) == LeavesAll(kids[..i]) + Leaves(kids[i])
  {
    LeavesAppend(kids[..i], [kids[i]]);
    assert kids[..i + 1] == kids[..i] + [kids[i]];
    assert [kids[i]][1..] == [];
  }

  method LinkKid(n: Node, i: nat, prev: Node?, order: nat, ghost m: map<Node, nat>, ghost kids: seq<Shape>, ghost t: Tree,
                 ghost all: set<object>)
    returns (last: Node?)
    requires RepWith(m, InnerS(n, kids), t, order) && Objs(InnerS(n, kids)) <= all && Sizes(all) == m
    requires i < |kids| && (prev != null ==> prev in all)
    modifies NodesIn(all)`next
    ensures RepWith(m, InnerS(n, kids), t, order) == true && Sizes(all) == m
    ensures NextOf(all) == LinkIn(old(NextOf(all)), prev, Leaves(kids[i])) && last == LastOf(prev, Leaves(kids[i]))
    ensures last != null ==> last in all
    decreases t, 0, 0
  {
    ChildWith(m, n, kids, t, order, i);
    KidIn(kids, i);
    assert Arrays(InnerS(n, kids)) <= all;
    last := LinkLeaves(n.children[i], prev, order, m, kids[i], t.kids[i], all);
  }

  lemma LinkStep(before: map<Node, Node?>, prev: Node?, kids: seq<Shape>, i: nat)
    requires i < |kids|
    ensures LinkIn(before, prev, LeavesAll(kids[..i + 1]))
         == LinkIn(LinkIn(before, prev, LeavesAll(kids[..i])), LastOf(prev, LeavesAll(kids[..i])), Leaves(kids[i]))
    ensures LastOf(prev, LeavesAll(kids[..i + 1])) == LastOf(LastOf(prev, LeavesAll(kids[..i])), Leaves(kids[i]))
  {
    LeavesTake(kids, i);
    LinkInAppend(before, prev, LeavesAll(kids[..i]), Leaves(kids[i]));
  }

  method LinkKids(n: Node, prev: Node?, order: nat, ghost m: map<Node, nat>, ghost kids: seq<Shape>, ghost t: Tree,
                  ghost all: set<object>)
    returns (last: Node?)
    requires RepWith(m, InnerS(n, kids), t, order) && Objs(InnerS(n, kids)) <= all && Sizes(all) == m
    requires prev != null ==> prev in all
    modifies NodesIn(all)`next
    ensures NextOf(all) == LinkIn(old(NextOf(all)), prev, LeavesAll(kids)) && last == LastOf(prev, LeavesAll(kids))
    ensures Sizes(all) == m
    ensures last != null ==> last in all
    decreases t, 0, 1
  {
    last := prev;
    ghost var before := NextOf(all);
    var i := 0;
    while i <= n.numKeys
      invariant i <= n.numKeys + 1 == |kids|
      invariant RepWith(m, InnerS(n, kids), t, order) == true && Sizes(all) == m
      invariant NextOf(all) == LinkIn(before, prev, LeavesAll(kids[..i]))
      invariant last == LastOf(prev, LeavesAll(kids[..i])) && (last != null ==> last in all)
    {
      LinkStep(before, prev, kids, i);
      last := LinkKid(n, i, last, order, m, kids, t, all);
      i := i + 1;
    }
    assert kids[..i] == kids;
  }

  // ---------------------------------------------------------------------------
  // btree_save and btree_open
  // ---------------------------------------------------------------------------

  /** The file btree_save writes for an index of the given order. */
  ghost function Image(ix: Index, order: nat): seq<Byte>
    requires ValidIndex(ix, order) && Fits(ix.root) && order < 0x8000_0000
  {
    U32(MAGIC) + (U32(order) + (U32(ix.size) + (U32(1) + NodeBytes(ix.root))))
  }

  method WriteHeader(fp: File, order: nat, size: nat)
    requires order < 0x8000_0000 && size < KEY_LIMIT
    modifies fp
    ensures fp.bytes == U32(MAGIC) + U32(order) + U32(size) + U32(1) && fp.pos == 0
  {
    fp.bytes, fp.pos := [], 0;
    fp.Write(U32(MAGIC));
    fp.Write(U32(order));
    fp.Write(U32(size));
    fp.Write(U32(1));
    assert [] + U32(MAGIC) == U32(MAGIC);
  }

  lemma ImageParts(ix: Index, order: nat)
    requires ValidIndex(ix, order) && Fits(ix.root) && order < 0x8000_0000
    ensures U32(MAGIC) + U32(order) + U32(ix.size) + U32(1) + NodeBytes(ix.root) == Image(ix, order)
  {
    AppendAssoc(U32(MAGIC) + U32(order) + U32(ix.size), U32(1), NodeBytes(ix.root));
    AppendAssoc(U32(MAGIC) + U32(order), U32(ix.size), U32(1) + NodeBytes(ix.root));
    AppendAssoc(U32(MAGIC), U32(order), U32(ix.size) + (U32(1) + NodeBytes(ix.root)));
  }

  /** btree_save */
  method Save(tree: IndexTree, fp: File)
    requires tree.Valid() && Fits(tree.view.root) && tree.order < 0x8000_0000 && fp !in tree.area
    modifies fp, tree`dirty
    ensures fp.bytes == Image(tree.view, tree.order) && fp.pos == 0
    ensures tree.Valid() && !tree.dirty && tree.view == old(tree.view)
  {
    ImageParts(tree.view, tree.order);
    WriteHeader(fp, tree.order, tree.size);
    WriteNode(fp, tree.root, tree.order, tree.shape, tree.view.root, tree.area);
    tree.dirty := false;
  }

  /** btree_open past its header checks: same order, same size, same nodes, and the leaf chain is back. */
  method OpenImage(fp: File, ghost ix: Index, ghost order: nat) returns (tree: IndexTree)
    requires ValidIndex(ix, order) && Fits(ix.root) && order < 0x8000_0000
    requires fp.pos == 0 && fp.bytes == Image(ix, order)
    modifies fp`pos
    ensures fresh(tree) && tree.Valid() && fresh(tree.area)
    ensures tree.view == ix && tree.order == order && !tree.dirty
    ensures fp.pos == |fp.bytes|
  {
    var _ := fp.Read32(MAGIC, U32(order) + (U32(ix.size) + (U32(1) + NodeBytes(ix.root))));
    var readOrder := fp.Read32(order, U32(ix.size) + (U32(1) + NodeBytes(ix.root)));
    var size := fp.Read32(ix.size, U32(1) + NodeBytes(ix.root));
    var _ := fp.Read32(1, NodeBytes(ix.root));
    assert NodeBytes(ix.root) + [] == NodeBytes(ix.root);
    var root;
    ghost var s;
    root, s := ReadNode(fp, readOrder, ix.root, ix.height, []);
    Relink(root, readOrder, s, ix.root, Objs(s));
    tree := new IndexTree.Loaded(readOrder, size, root, s, ix, Objs(s));
  }

  method Relink(root: Node, order: nat, ghost s: Shape, ghost t: Tree, ghost all: set<object>)
    requires s.n == root && Rep(s, t, order) && Separate(s) && Objs(s) <= all
    modifies NodesIn(all)`next
    ensures Holds(root, s, t, order, all) == true
  {
    ghost var m, before := Sizes(all), NextOf(all);
    RepBySizes(s, t, order, all);
    assert Arrays(s) <= all;
    var _ := LinkLeaves(root, null, order, m, s, t, all);
    assert Rep(s, t, order) by {
      RepBySizes(s, t, order, all);
    }
    assert Chained(s) by {
      LeavesDistinct(s);
      LinkInLinks(before, null, Leaves(s));
      assert NextOf(all) == LinkIn(before, null, Leaves(s));
      assert Linked(NextOf(all), Leaves(s));
      ChainedNext(s, all);
    }
  }

  /** btree_open: a short or foreign file is refused, a saved index comes back. */
  method Open(fp: File, ghost ix: Index, ghost order: nat) returns (tree: IndexTree?)
    requires fp.pos == 0
    requires |fp.bytes| >= 16 && Get32(fp.bytes) == MAGIC ==>
               ValidIndex(ix, order) && Fits(ix.root) && order < 0x8000_0000 && fp.bytes == Image(ix, order)
    modifies fp`pos
    ensures tree == null <==> |fp.bytes| < 16 || Get32(fp.bytes) != MAGIC
    ensures tree != null ==> fresh(tree) && tree.Valid() && fresh(tree.area)
                             && tree.view == ix && tree.order == order && !tree.dirty && fp.pos == |fp.bytes|
  {
    if |fp.bytes| < 16 || Get32(fp.bytes) != MAGIC {
      return null;
    }
    tree := OpenImage(fp, ix, order);
  }

  /** Closing and opening again changes nothing a client can see. */
  method Reopen(tree: IndexTree, fp: File) returns (copy: IndexTree)
    requires tree.Valid() && Fits(tree.view.root) && tree.order < 0x8000_0000 && fp !in tree.area
    modifies fp, tree`dirty
    ensures copy.Valid() && fresh(copy) && fresh(copy.area)
    ensures copy.view == old(tree.view) && copy.order == tree.order
  {
    Save(tree, fp);
    copy := OpenImage(fp, tree.view, tree.order);
  }
}
