// A table in memory: pages behind the buffer pool, the B+ tree index and the log, changed in sequence by each operation.
// All operations run under one mutex, so each is one uninterrupted method here.
module Table {
  import opened PoolMap
  import opened BufferPool
  import opened Bytes
  import opened Common
  import opened TableModel
  import opened TableHistory
  import opened TableFile
  import opened TableScan
  import B = BTreeModel
  import P = Page
  import W = Wal
  import BTreeHistory
  import BTreeIndex

  const ORDER := 128

  // ---------------------------------------------------------------------------
  // The index of a table
  // ---------------------------------------------------------------------------

  ghost predicate Indexed(tree: BTreeIndex.IndexTree, index: map<B.Key, B.RecordPtr>)
    reads tree, tree.area
  {
    tree.Valid() && BTreeHistory.Contents(tree.view) == index
  }

  method LookUp(tree: BTreeIndex.IndexTree, id: nat, ghost index: map<B.Key, B.RecordPtr>) returns (ptr: Option<B.RecordPtr>)
    requires Indexed(tree, index) == true && id < B.KEY_LIMIT
    ensures ptr == if id in index then Some(index[id]) else None
  {
    BTreeHistory.SearchRootSound(tree.view, id, tree.order);
    ptr := tree.Search(id);
  }

  method AddEntry(tree: BTreeIndex.IndexTree, id: nat, ptr: B.RecordPtr, ghost index: map<B.Key, B.RecordPtr>) returns (ok: bool)
    requires Indexed(tree, index) == true && id < B.KEY_LIMIT
    modifies tree, tree.area
    ensures ok == (id !in index) && Indexed(tree, if ok then index[id := ptr] else index) == true
    ensures forall o :: o in tree.area ==> o in old(tree.area) || fresh(o)
  {
    BTreeHistory.InsertRootSound(tree.view, id, ptr, tree.order);
    ok := tree.Insert(id, ptr);
  }

  method DropEntry(tree: BTreeIndex.IndexTree, id: nat, ghost index: map<B.Key, B.RecordPtr>)
    requires Indexed(tree, index) == true && id < B.KEY_LIMIT
    modifies tree, tree.area
    ensures Indexed(tree, index - {id}) == true && tree.area == old(tree.area)
  {
    BTreeHistory.DeleteRootSound(tree.view, id, tree.order);
    var _ := tree.Delete(id);
  }

  // ---------------------------------------------------------------------------
  // Pages, index and log together
  // ---------------------------------------------------------------------------

  method NewIndex(pool: BufferPool, wal: W.Wal, fd: int, t: Kind) returns (tree: BTreeIndex.IndexTree)
    requires Stored(pool, fd, t, []) == true && wal.Valid() == true && wal !in pool.Repr() && wal.file !in pool.Repr()
    ensures Parts(pool, wal, tree, fd, t, EmptyData) == true && fresh(tree) && fresh(tree.area)
  {
    tree := new BTreeIndex.IndexTree(ORDER);
    EmptyConsistent(t);
    assert Stored(pool, fd, t, []) == true;
    assert wal.Valid() == true;
  }

  ghost predicate Separate(pool: BufferPool, wal: W.Wal, tree: BTreeIndex.IndexTree)
    reads pool`buffers, tree`area
  {
    && tree !in pool.Repr() && wal !in pool.Repr() && wal.file !in pool.Repr()
    && pool.Repr() !! tree.area && wal !in tree.area && wal.file !in tree.area
  }

  /** The file holds these pages, the tree this index, and the log is in order. */
  ghost predicate Parts(pool: BufferPool, wal: W.Wal, tree: BTreeIndex.IndexTree, fd: int, t: Kind, d: Data)
    reads pool, pool.Repr(), wal, wal.file, tree, tree.area
  {
    && Separate(pool, wal, tree)
    && Stored(pool, fd, t, d.pages) == true && Indexed(tree, d.index) == true && wal.Valid() == true && Sound(t, d) == true
  }

  method FindParts(pool: BufferPool, wal: W.Wal, tree: BTreeIndex.IndexTree, fd: int, t: Kind, id: nat, ghost d: Data)
    returns (r: Option<Row>)
    requires Parts(pool, wal, tree, fd, t, d) == true && id < B.KEY_LIMIT
    modifies pool.Repr()
    ensures Parts(pool, wal, tree, fd, t, d) == true && pool.Repr() == old(pool.Repr())
    ensures OthersSame(old(pool.State()), fd, pool.State()) == true
    ensures r == Find(t, d, id)
  {
    ghost var q := pool.State();
    SameAsItself(q, fd);
    FindByIndex(t, d, id);
    var ptr := LookUp(tree, id, d.index);
    assert pool.State() == q;
    if ptr.None? {
      return None;
    }
    r := ReadRow(pool, fd, t, ptr.value.pageId, ptr.value.slotId, d.pages);
    assert Indexed(tree, d.index) == true && wal.Valid() == true;
    if r.None? || !IsLive(t, r.value) {
      return None;
    }
  }

  /** The index has no part in an update. */
  method ReplaceIndexed(pool: BufferPool, wal: W.Wal, tree: BTreeIndex.IndexTree, fd: int, t: Kind, p: B.RecordPtr, id: nat, r: Row,
                        ghost index: map<B.Key, B.RecordPtr>, ghost pages: RowPages)
    returns (ok: bool)
    requires Stored(pool, fd, t, pages) == true && Has(pages, p) && wal.Valid() == true && wal.nextLsn <= MAX_LSN
    requires id < B.KEY_LIMIT && RowOk(t, r) && RowOk(t, RowIn(pages, p))
    requires Separate(pool, wal, tree) == true && Indexed(tree, index) == true
    modifies pool.Repr(), wal, wal.file
    ensures Stored(pool, fd, t, if ok then PutRow(pages, p, r) else pages) == true
    ensures ok == IsLive(t, RowIn(pages, p)) && OthersSame(old(pool.State()), fd, pool.State()) == true
    ensures Indexed(tree, index) == true && wal.Valid() == true && pool.Repr() == old(pool.Repr())
    ensures wal.log == old(wal.log) + if ok then [UpdateRecord(t, |old(wal.log)| + 1, id, RowIn(pages, p), r)] else []
  {
    ok := ReplaceRow(pool, wal, fd, t, p, id, r, pages);
    assert Indexed(tree, index) == true;
  }

  method UpdateFound(pool: BufferPool, wal: W.Wal, tree: BTreeIndex.IndexTree, fd: int, t: Kind, id: nat, r: Row,
                     ghost index: map<B.Key, B.RecordPtr>, ghost pages: RowPages)
    returns (ok: bool)
    requires Stored(pool, fd, t, pages) == true && wal.Valid() == true && wal.nextLsn <= MAX_LSN
    requires id < B.KEY_LIMIT && RowOk(t, r) && (id in index ==> Has(pages, index[id]) && RowOk(t, RowIn(pages, index[id])))
    requires Separate(pool, wal, tree) == true && Indexed(tree, index) == true
    modifies pool.Repr(), wal, wal.file
    ensures ok == (id in index && IsLive(t, RowIn(pages, index[id])))
    ensures Stored(pool, fd, t, if ok then PutRow(pages, index[id], r) else pages) == true
    ensures OthersSame(old(pool.State()), fd, pool.State()) == true
    ensures Indexed(tree, index) == true && wal.Valid() == true && pool.Repr() == old(pool.Repr())
    ensures wal.log == old(wal.log) + if ok then [UpdateRecord(t, |old(wal.log)| + 1, id, RowIn(pages, index[id]), r)] else []
  {
    ghost var q := pool.State();
    SameAsItself(q, fd);
    var ptr := LookUp(tree, id, index);
    assert pool.State() == q;
    if ptr.None? {
      return false;
    }
    ok := ReplaceIndexed(pool, wal, tree, fd, t, ptr.value, id, r, index, pages);
  }

  method UpdateParts(pool: BufferPool, wal: W.Wal, tree: BTreeIndex.IndexTree, fd: int, t: Kind, id: nat, r: Row, ghost d: Data)
    returns (ok: bool)
    requires Parts(pool, wal, tree, fd, t, d) == true && id < B.KEY_LIMIT && RowOk(t, r) && wal.nextLsn <= MAX_LSN
    modifies pool.Repr(), wal, wal.file
    ensures var w := World(d, old(wal.log)); var w' := Step(t, w, Updates(id, r));
            Parts(pool, wal, tree, fd, t, w'.data) == true && wal.log == w'.log && ok == (id in Rows(t, d))
    ensures OthersSame(old(pool.State()), fd, pool.State()) == true && pool.Repr() == old(pool.Repr())
  {
    ghost var log := wal.log;
    UpdateStep(t, World(d, log), id, r);
    ok := UpdateFound(pool, wal, tree, fd, t, id, r, d.index, d.pages);
    UpdateGlue(t, World(d, log), id, r, ok, wal.log);
  }

  /** What the update did to pages and log is the step. */
  lemma UpdateGlue(t: Kind, w: World, id: nat, r: Row, ok: bool, log: seq<W.Record>)
    requires Sound(t, w.data) && RowOk(t, r)
    requires id in w.data.index ==> Has(w.data.pages, w.data.index[id]) && RowOk(t, RowIn(w.data.pages, w.data.index[id]))
    requires ok == (id in w.data.index && IsLive(t, RowIn(w.data.pages, w.data.index[id])))
    requires log == w.log + if ok then [UpdateRecord(t, |w.log| + 1, id, RowIn(w.data.pages, w.data.index[id]), r)] else []
    ensures var w' := Step(t, w, Updates(id, r));
            && w'.data.pages == (if ok then PutRow(w.data.pages, w.data.index[id], r) else w.data.pages)
            && w'.data.index == w.data.index && w'.log == log && Sound(t, w'.data) && ok == (id in Rows(t, w.data))
  {
    UpdateStep(t, w, id, r);
    AppendNothing(w.log);
  }

  /** The index entry goes while the row's page is still pinned. */
  method DropWhileVisiting(tree: BTreeIndex.IndexTree, id: nat, ghost index: map<B.Key, B.RecordPtr>,
                           pool: BufferPool, fd: int, t: Kind, i: nat, buf: array<Byte>, ghost pages: RowPages, ghost q: Pool)
    requires Visiting(pool, fd, t, pages, i, buf, q) == true && buf in pool.Repr()
    requires Indexed(tree, index) == true && id < B.KEY_LIMIT && tree !in pool.Repr() && pool.Repr() !! tree.area
    modifies tree, tree.area
    ensures Visiting(pool, fd, t, pages, i, buf, q) == true && buf[..] == old(buf[..])
    ensures pool.Repr() == old(pool.Repr())
    ensures Indexed(tree, index - {id}) == true && tree.area == old(tree.area)
  {
    DropEntry(tree, id, index);
    assert Visiting(pool, fd, t, pages, i, buf, q) == true;
  }

  /** Log, flag, index, unpin: the end of a delete. */
  method RemoveVisited(pool: BufferPool, wal: W.Wal, tree: BTreeIndex.IndexTree, fd: int, t: Kind, p: B.RecordPtr, id: nat,
                       before: Row, buf: array<Byte>, ghost index: map<B.Key, B.RecordPtr>, ghost pages: RowPages, ghost q: Pool)
    requires Has(pages, p) && RowOk(t, before) && before == RowIn(pages, p)
    requires Visiting(pool, fd, t, pages, p.pageId, buf, q) == true && BufRows(buf, t) == pages[p.pageId] && buf in pool.Repr()
    requires wal.Valid() == true && wal.nextLsn <= MAX_LSN && id < B.KEY_LIMIT
    requires Separate(pool, wal, tree) == true && Indexed(tree, index) == true
    modifies pool.Repr(), wal, wal.file, tree, tree.area
    ensures Stored(pool, fd, t, PutRow(pages, p, Marked(t, before))) == true && OthersSame(q, fd, pool.State()) == true
    ensures Indexed(tree, index - {id}) == true && wal.Valid() == true && tree.area == old(tree.area) && pool.Repr() == old(pool.Repr())
    ensures wal.log == old(wal.log) + [W.Record(|old(wal.log)| + 1, 0, W.Delete, Code(t), id, before, W.Image(None, RecordSize(t)))]
  {
    FlagRow(pool, wal, fd, t, p, id, before, buf, pages, q);
    assert Indexed(tree, index) == true;
    DropWhileVisiting(tree, id, index, pool, fd, t, p.pageId, buf, pages, q);
    assert wal.Valid() == true;
    LeaveChanged(pool, fd, t, p.pageId, buf, pages, q);
    assert Indexed(tree, index - {id}) == true && wal.Valid() == true;
  }

  /** The part of table_delete after the index lookup. */
  method RemoveRow(pool: BufferPool, wal: W.Wal, tree: BTreeIndex.IndexTree, fd: int, t: Kind, p: B.RecordPtr, id: nat,
                   ghost index: map<B.Key, B.RecordPtr>, ghost pages: RowPages)
    returns (ok: bool)
    requires Stored(pool, fd, t, pages) == true && Has(pages, p) && RowOk(t, RowIn(pages, p))
    requires wal.Valid() == true && wal.nextLsn <= MAX_LSN && id < B.KEY_LIMIT
    requires Separate(pool, wal, tree) == true && Indexed(tree, index) == true
    modifies pool.Repr(), wal, wal.file, tree, tree.area
    ensures Stored(pool, fd, t, if ok then PutRow(pages, p, Marked(t, RowIn(pages, p))) else pages) == true
    ensures ok == IsLive(t, RowIn(pages, p)) && OthersSame(old(pool.State()), fd, pool.State()) == true
    ensures Indexed(tree, if ok then index - {id} else index) == true && wal.Valid() == true
    ensures tree.area == old(tree.area) && pool.Repr() == old(pool.Repr())
    ensures wal.log == old(wal.log) + if ok then [DeleteRecord(t, |old(wal.log)| + 1, id, RowIn(pages, p))] else []
  {
    ghost var q := pool.State();
    var buf, before := VisitRow(pool, fd, t, p.pageId, p.slotId, pages);
    assert Indexed(tree, index) == true && wal.Valid() == true;
    if before.None? || !IsLive(t, before.value) {
      Leave(pool, fd, t, p.pageId, buf, pages, q);
      assert Indexed(tree, index) == true && wal.Valid() == true;
      return false;
    }
    RemoveVisited(pool, wal, tree, fd, t, p, id, before.value, buf, index, pages, q);
    return true;
  }

  method DeleteFound(pool: BufferPool, wal: W.Wal, tree: BTreeIndex.IndexTree, fd: int, t: Kind, id: nat,
                     ghost index: map<B.Key, B.RecordPtr>, ghost pages: RowPages)
    returns (ok: bool)
    requires Stored(pool, fd, t, pages) == true && wal.Valid() == true && wal.nextLsn <= MAX_LSN && id < B.KEY_LIMIT
    requires id in index ==> Has(pages, index[id]) && RowOk(t, RowIn(pages, index[id]))
    requires Separate(pool, wal, tree) == true && Indexed(tree, index) == true
    modifies pool.Repr(), wal, wal.file, tree, tree.area
    ensures ok == (id in index && IsLive(t, RowIn(pages, index[id])))
    ensures Stored(pool, fd, t, if ok then PutRow(pages, index[id], Marked(t, RowIn(pages, index[id]))) else pages) == true
    ensures OthersSame(old(pool.State()), fd, pool.State()) == true
    ensures Indexed(tree, if ok then index - {id} else index) == true && wal.Valid() == true
    ensures pool.Repr() == old(pool.Repr()) && tree.area == old(tree.area)
    ensures wal.log == old(wal.log) + if ok then [DeleteRecord(t, |old(wal.log)| + 1, id, RowIn(pages, index[id]))] else []
  {
    ghost var q := pool.State();
    SameAsItself(q, fd);
    var ptr := LookUp(tree, id, index);
    assert pool.State() == q;
    if ptr.None? {
      return false;
    }
    ok := RemoveRow(pool, wal, tree, fd, t, ptr.value, id, index, pages);
  }

  method DeleteParts(pool: BufferPool, wal: W.Wal, tree: BTreeIndex.IndexTree, fd: int, t: Kind, id: nat, ghost d: Data)
    returns (ok: bool)
    requires Parts(pool, wal, tree, fd, t, d) == true && id < B.KEY_LIMIT && wal.nextLsn <= MAX_LSN
    modifies pool.Repr(), wal, wal.file, tree, tree.area
    ensures var w := World(d, old(wal.log)); var w' := Step(t, w, Deletes(id));
            Parts(pool, wal, tree, fd, t, w'.data) == true && wal.log == w'.log && ok == (id in Rows(t, d))
    ensures OthersSame(old(pool.State()), fd, pool.State()) == true && pool.Repr() == old(pool.Repr()) && tree.area == old(tree.area)
  {
    ghost var log := wal.log;
    DeleteStep(t, World(d, log), id);
    ok := DeleteFound(pool, wal, tree, fd, t, id, d.index, d.pages);
    DeleteGlue(t, World(d, log), id, ok, wal.log);
  }

  /** What the delete did to pages, index and log is the step. */
  lemma DeleteGlue(t: Kind, w: World, id: nat, ok: bool, log: seq<W.Record>)
    requires Sound(t, w.data)
    requires id in w.data.index ==> Has(w.data.pages, w.data.index[id]) && RowOk(t, RowIn(w.data.pages, w.data.index[id]))
    requires ok == (id in w.data.index && IsLive(t, RowIn(w.data.pages, w.data.index[id])))
    requires log == w.log + if ok then [DeleteRecord(t, |w.log| + 1, id, RowIn(w.data.pages, w.data.index[id]))] else []
    ensures var w' := Step(t, w, Deletes(id));
            && w'.data.pages == (if ok then PutRow(w.data.pages, w.data.index[id], Marked(t, RowIn(w.data.pages, w.data.index[id]))) else w.data.pages)
            && w'.data.index == (if ok then w.data.index - {id} else w.data.index)
            && w'.log == log && Sound(t, w'.data) && ok == (id in Rows(t, w.data))
  {
    DeleteStep(t, w, id);
    AppendNothing(w.log);
  }

  /** The index entry comes when the row is already in its page. */
  method AddWhileStored(tree: BTreeIndex.IndexTree, id: nat, p: B.RecordPtr, ghost index: map<B.Key, B.RecordPtr>,
                        pool: BufferPool, fd: int, t: Kind, ghost pages: RowPages)
    requires Stored(pool, fd, t, pages) == true && Indexed(tree, index) == true && id < B.KEY_LIMIT && id !in index
    requires tree !in pool.Repr() && pool.Repr() !! tree.area
    modifies tree, tree.area
    ensures Stored(pool, fd, t, pages) == true && pool.Repr() == old(pool.Repr()) && pool.State() == old(pool.State())
    ensures Indexed(tree, index[id := p]) == true
    ensures forall o :: o in tree.area ==> o in old(tree.area) || fresh(o)
  {
    var _ := AddEntry(tree, id, p, index);
    assert pool.buffers == old(pool.buffers);
  }

  method EnterRow(pool: BufferPool, wal: W.Wal, tree: BTreeIndex.IndexTree, fd: int, t: Kind, n: nat, id: nat, row: Row,
                     ghost pages: RowPages, ghost index: map<B.Key, B.RecordPtr>)
    returns (p: B.RecordPtr)
    requires Stored(pool, fd, t, pages) == true && n == |pages| < MAX_PAGES && RowOk(t, row)
    requires wal.Valid() == true && wal.nextLsn <= MAX_LSN && id < B.KEY_LIMIT && id !in index
    requires Separate(pool, wal, tree) == true && Indexed(tree, index) == true
    modifies pool.Repr(), wal, wal.file, tree, tree.area
    ensures Stored(pool, fd, t, AppendRow(t, pages, row)) == true && p == NextPtr(t, pages)
    ensures Indexed(tree, index[id := p]) == true && wal.Valid() == true
    ensures OthersSame(old(pool.State()), fd, pool.State()) == true && pool.Repr() == old(pool.Repr())
    ensures forall o :: o in tree.area ==> o in old(tree.area) || fresh(o)
    ensures wal.log == old(wal.log) + [InsertRecord(t, |old(wal.log)| + 1, id, row)]
  {
    p := StoreRow(pool, wal, fd, t, n, id, row, pages);
    assert Indexed(tree, index) == true;
    AddWhileStored(tree, id, p, index, pool, fd, t, AppendRow(t, pages, row));
    assert wal.Valid() == true;
  }

  method InsertParts(pool: BufferPool, wal: W.Wal, tree: BTreeIndex.IndexTree, fd: int, t: Kind, n: nat, r: Row, id: nat, ghost d: Data)
    returns (p: B.RecordPtr)
    requires Parts(pool, wal, tree, fd, t, d) == true && n == |d.pages| < MAX_PAGES && id == d.nextId < B.KEY_LIMIT
    requires RowOk(t, r) && wal.nextLsn <= MAX_LSN
    modifies pool.Repr(), wal, wal.file, tree, tree.area
    ensures var w := World(d, old(wal.log)); var w' := Step(t, w, Inserts(r));
            Parts(pool, wal, tree, fd, t, w'.data) == true && wal.log == w'.log && p == NextPtr(t, d.pages)
    ensures OthersSame(old(pool.State()), fd, pool.State()) == true && pool.Repr() == old(pool.Repr())
    ensures forall o :: o in tree.area ==> o in old(tree.area) || fresh(o)
  {
    ghost var log := wal.log;
    InsertGlue(t, World(d, log), r);
    p := EnterRow(pool, wal, tree, fd, t, n, id, WithKey(t, r, id), d.pages, d.index);
  }

  /** What the insert does to pages, index and log is the step. */
  lemma InsertGlue(t: Kind, w: World, r: Row)
    requires Sound(t, w.data) == true && RowOk(t, r) && w.data.nextId < B.KEY_LIMIT
    ensures var d, w', row := w.data, Step(t, w, Inserts(r)), WithKey(t, r, w.data.nextId);
            && Sound(t, w'.data) == true && d.nextId !in d.index
            && w'.data.pages == AppendRow(t, d.pages, row) && w'.data.index == d.index[d.nextId := NextPtr(t, d.pages)]
            && w'.log == w.log + [InsertRecord(t, |w.log| + 1, d.nextId, row)]
  {
    InsertStep(t, w, r);
  }

  method ScanParts(pool: BufferPool, wal: W.Wal, tree: BTreeIndex.IndexTree, fd: int, t: Kind, n: nat, f: Row -> bool, max: nat, ghost d: Data)
    returns (results: seq<Row>)
    requires Parts(pool, wal, tree, fd, t, d) == true && n == |d.pages|
    modifies pool.Repr()
    ensures Parts(pool, wal, tree, fd, t, d) == true && pool.Repr() == old(pool.Repr())
    ensures OthersSame(old(pool.State()), fd, pool.State()) == true
    ensures IsFirst(results, WantedTo(t, f, d.pages, n), max) == true
  {
    results := ScanFile(pool, fd, t, n, f, max, d.pages);
    assert Indexed(tree, d.index) == true && wal.Valid() == true;
  }

  method CountParts(pool: BufferPool, wal: W.Wal, tree: BTreeIndex.IndexTree, fd: int, t: Kind, n: nat, ghost d: Data) returns (count: nat)
    requires Parts(pool, wal, tree, fd, t, d) == true && n == |d.pages|
    modifies pool.Repr()
    ensures Parts(pool, wal, tree, fd, t, d) == true && pool.Repr() == old(pool.Repr())
    ensures OthersSame(old(pool.State()), fd, pool.State()) == true
    ensures count == |WantedTo(t, r => true, d.pages, n)|
  {
    count := CountFile(pool, fd, t, n, d.pages);
    assert Indexed(tree, d.index) == true && wal.Valid() == true;
  }

  method MaxParts(pool: BufferPool, wal: W.Wal, tree: BTreeIndex.IndexTree, fd: int, t: Kind, n: nat, ghost d: Data)
    returns (legacy: bool, m: int)
    requires Parts(pool, wal, tree, fd, t, d) == true && n == |d.pages|
    modifies pool.Repr()
    ensures Parts(pool, wal, tree, fd, t, d) == true && pool.Repr() == old(pool.Repr())
    ensures OthersSame(old(pool.State()), fd, pool.State()) == true
    ensures PagesOk(t, d.pages) && legacy == LegacyTo(t, d.pages, n) && (!legacy ==> m == MaxTo(t, d.pages, n))
  {
    legacy, m := MaxFile(pool, fd, t, n, d.pages);
    assert Indexed(tree, d.index) == true && wal.Valid() == true;
  }

  // ---------------------------------------------------------------------------
  // The table
  // ---------------------------------------------------------------------------

  class Table {
    const kind: Kind
    const fd: int
    const pool: BufferPool
    const tree: BTreeIndex.IndexTree
    const wal: W.Wal

    /** The length of the data file in pages, and the table's id counter. */
    var pageCount: nat
    var nextId: nat

    /** What the table holds. */
    ghost var data: Data

    ghost function Repr(): set<object>
      reads this, pool`buffers, tree`area
    {
      {this, tree, wal, wal.file} + tree.area + pool.Repr()
    }

    ghost predicate Valid()
      reads this, Repr()
    {
      && this !in pool.Repr() && this !in tree.area && Parts(pool, wal, tree, fd, kind, data) == true
      && pageCount == |data.pages| && nextId == data.nextId
    }

    /** table_create: an empty data file and a new index. */
    constructor (kind: Kind, fd: int, pool: BufferPool, wal: W.Wal)
      requires Stored(pool, fd, kind, []) == true && wal.Valid() == true
      requires wal !in pool.Repr() && wal.file !in pool.Repr()
      ensures Valid() == true && data == EmptyData
      ensures this.kind == kind && this.fd == fd && this.pool == pool && this.wal == wal && fresh(tree) && fresh(tree.area)
    {
      this.kind, this.fd, this.pool, this.wal := kind, fd, pool, wal;
      var t := NewIndex(pool, wal, fd, kind);
      tree := t;
      pageCount, nextId, data := 0, 1, EmptyData;
    }

    /** A table over a file and an index that exist already, with the next id to give out. */
    constructor Over(kind: Kind, fd: int, pool: BufferPool, wal: W.Wal, tree: BTreeIndex.IndexTree, n: nat, next: nat, ghost d: Data)
      requires Parts(pool, wal, tree, fd, kind, d) == true && n == |d.pages|
      ensures this.kind == kind && this.fd == fd && this.pool == pool && this.wal == wal && this.tree == tree
      ensures nextId == next && data == d.(nextId := next)
      ensures next == d.nextId ==> Valid() == true
    {
      this.kind, this.fd, this.pool, this.wal, this.tree := kind, fd, pool, wal, tree;
      pageCount, nextId, data := n, next, d.(nextId := next);
      new;
      assert Parts(pool, wal, tree, fd, kind, d) == true;
    }

    /** The parts stand for `d` already; now the table says so. */
    ghost method Holds(d: Data)
      requires this !in pool.Repr() && this !in tree.area && Parts(pool, wal, tree, fd, kind, d) == true
      modifies this`data
      ensures data == d && Parts(pool, wal, tree, fd, kind, d) == true && pool.State() == old(pool.State())
      ensures pool.Repr() == old(pool.Repr())
    {
      data := d;
      assert pool.buffers == old(pool.buffers);
    }

    /** As many pages and ids as before: the table is valid again. */
    ghost method Settle(d: Data)
      requires this !in pool.Repr() && this !in tree.area && Parts(pool, wal, tree, fd, kind, d) == true
      requires pageCount == |d.pages| && nextId == d.nextId
      modifies this`data
      ensures Valid() == true && data == d && pool.State() == old(pool.State()) && pool.Repr() == old(pool.Repr())
    {
      Holds(d);
    }

    /** The file may have one page more now. */
    method Grow(p: B.RecordPtr, ghost d: Data)
      requires this !in pool.Repr() && this !in tree.area && Parts(pool, wal, tree, fd, kind, d) == true
      modifies this`data, this`pageCount
      ensures data == d && Parts(pool, wal, tree, fd, kind, d) == true && pool.State() == old(pool.State())
      ensures pageCount == (if p.pageId == old(pageCount) then old(pageCount) + 1 else old(pageCount)) && pool.Repr() == old(pool.Repr())
    {
      if p.pageId == pageCount {
        pageCount := pageCount + 1;
      }
      data := d;
      assert pool.buffers == old(pool.buffers);
    }

    /** etp_next_id */
    method TakeId() returns (id: nat)
      requires this !in pool.Repr() && this !in tree.area && Parts(pool, wal, tree, fd, kind, data) == true
      modifies this`nextId
      ensures id == old(nextId) && nextId == id + 1
      ensures Parts(pool, wal, tree, fd, kind, data) == true && pool.State() == old(pool.State()) && pool.Repr() == old(pool.Repr())
    {
      id := nextId;
      nextId := nextId + 1;
      assert pool.buffers == old(pool.buffers);
    }

    /** table_find_by_id */
    method FindById(id: nat) returns (r: Option<Row>)
      requires Valid() == true && id < B.KEY_LIMIT
      modifies pool.Repr()
      ensures Valid() == true && OthersSame(old(pool.State()), fd, pool.State()) == true
      ensures r == Find(kind, data, id)
    {
      r := FindParts(pool, wal, tree, fd, kind, id, data);
    }

    /** table_update */
    method Update(id: nat, r: Row) returns (ok: bool)
      requires Valid() == true && id < B.KEY_LIMIT && RowOk(kind, r) && wal.nextLsn <= MAX_LSN
      modifies this`data, pool.Repr(), wal, wal.file
      ensures Valid() == true && OthersSame(old(pool.State()), fd, pool.State()) == true
      ensures Sound(kind, old(data)) && ok == (id in Rows(kind, old(data)))
      ensures World(data, wal.log) == Step(kind, old(World(data, wal.log)), Updates(id, r))
    {
      ghost var w := World(data, wal.log);
      UpdateStep(kind, w, id, r);
      ok := UpdateParts(pool, wal, tree, fd, kind, id, r, data);
      Settle(Step(kind, w, Updates(id, r)).data);
    }

    /** table_delete */
    method Delete(id: nat) returns (ok: bool)
      requires Valid() == true && id < B.KEY_LIMIT && wal.nextLsn <= MAX_LSN
      modifies this`data, pool.Repr(), wal, wal.file, tree, tree.area
      ensures Valid() == true && OthersSame(old(pool.State()), fd, pool.State()) == true
      ensures Sound(kind, old(data)) && ok == (id in Rows(kind, old(data)))
      ensures World(data, wal.log) == Step(kind, old(World(data, wal.log)), Deletes(id))
    {
      ghost var w := World(data, wal.log);
      DeleteStep(kind, w, id);
      ok := DeleteParts(pool, wal, tree, fd, kind, id, data);
      Settle(Step(kind, w, Deletes(id)).data);
    }

    /** table_insert: the row gets the next id, a slot, a log record and an index entry. */
    method Insert(r: Row) returns (id: nat)
      requires Valid() == true && RowOk(kind, r) && nextId < B.KEY_LIMIT && pageCount < MAX_PAGES && wal.nextLsn <= MAX_LSN
      modifies Repr()
      ensures Valid() == true && OthersSame(old(pool.State()), fd, pool.State()) == true
      ensures id == old(nextId) && pool.Repr() == old(pool.Repr()) && Sound(kind, old(data))
      ensures World(data, wal.log) == Step(kind, old(World(data, wal.log)), Inserts(r))
      ensures Sound(kind, data) && Find(kind, old(data), id) == None
      ensures if IsLive(kind, r) then Find(kind, data, id).Some? && OnlyKeyed(kind, r, id, Find(kind, data, id).value)
              else Find(kind, data, id) == None
      ensures |wal.log| == |old(wal.log)| + 1 && OnlyKeyed(kind, r, id, wal.log[|wal.log| - 1].new_)
    {
      ghost var w := World(data, wal.log);
      InsertStep(kind, w, r);
      InsertedFound(kind, data, r, nextId);
      KeyWritten(kind, r, nextId);
      id := TakeId();
      var ptr := InsertParts(pool, wal, tree, fd, kind, pageCount, r, id, data);
      Grow(ptr, Step(kind, w, Inserts(r)).data);
    }

    /** table_scan: the first `max` of the rows the filter accepts, in slot order. In a consistent table these are rows of
        the table, each at most once; with room enough, all of them. */
    method Scan(f: Row -> bool, max: int) returns (results: seq<Row>)
      requires Valid() == true
      modifies pool.Repr()
      ensures Valid() == true && OthersSame(old(pool.State()), fd, pool.State()) == true
      ensures IsFirst(results, WantedTo(kind, f, data.pages, |data.pages|), if max < 0 then 0 else max)
      ensures Consistent(kind, data) ==> ScanRight(kind, data, f, results, if max < 0 then 0 else max)
    {
      results := ScanParts(pool, wal, tree, fd, kind, pageCount, f, if max < 0 then 0 else max, data);
      if Consistent(kind, data) {
        ScanIsRight(kind, data, f, results, if max < 0 then 0 else max);
      }
    }

    /** table_count: in a consistent table, the number of its rows. */
    method Count() returns (count: nat)
      requires Valid() == true
      modifies pool.Repr()
      ensures Valid() == true && OthersSame(old(pool.State()), fd, pool.State()) == true
      ensures Sound(kind, data) && (Consistent(kind, data) ==> count == |Rows(kind, data)|)
    {
      count := CountParts(pool, wal, tree, fd, kind, pageCount, data);
      if Consistent(kind, data) {
        CountCounts(kind, data);
      }
    }
  }

  /** table_open, once the index is read: it refuses a legacy file and one that has used up its ids, and otherwise goes on
      with the id after the largest on file. A table that was consistent when it was closed is the same table again. */
  method OpenTable(kind: Kind, fd: int, pool: BufferPool, wal: W.Wal, tree: BTreeIndex.IndexTree, n: nat, ghost d: Data)
    returns (table: Table?)
    requires Parts(pool, wal, tree, fd, kind, d) == true && n == |d.pages|
    modifies pool.Repr()
    ensures PagesOk(kind, d.pages)
    ensures table == null <==> LegacyTo(kind, d.pages, n) || MaxTo(kind, d.pages, n) == B.KEY_LIMIT - 1
    ensures LegacyTo(kind, d.pages, n) <==> kind == BookingSeats && exists p: B.RecordPtr :: Has(d.pages, p) && KeyAt(kind, d.pages, p) == 0
    ensures IsMax(kind, d.pages, n, MaxTo(kind, d.pages, n)) && (table != null ==> table.nextId == MaxTo(kind, d.pages, n) + 1)
    ensures Consistent(kind, d) ==> (table == null <==> d.nextId == B.KEY_LIMIT)
    ensures table != null && Consistent(kind, d) ==> table.Valid() && table.data == d && table.nextId == d.nextId
  {
    var legacy, m := MaxParts(pool, wal, tree, fd, kind, n, d);
    OpenFacts(kind, d);
    if legacy || m == B.KEY_LIMIT - 1 {
      return null;
    }
    table := new Table.Over(kind, fd, pool, wal, tree, n, m + 1, d);
  }

  /** What the walk of table_open finds, said of the rows. */
  lemma OpenFacts(t: Kind, d: Data)
    requires PagesOk(t, d.pages)
    ensures LegacyTo(t, d.pages, |d.pages|) <==> t == BookingSeats && exists p: B.RecordPtr :: Has(d.pages, p) && KeyAt(t, d.pages, p) == 0
    ensures IsMax(t, d.pages, |d.pages|, MaxTo(t, d.pages, |d.pages|)) && MaxTo(t, d.pages, |d.pages|) >= 0
    ensures Consistent(t, d) ==> !LegacyTo(t, d.pages, |d.pages|) && MaxTo(t, d.pages, |d.pages|) + 1 == d.nextId
  {
    LegacyMeans(t, d.pages);
    MaxToIs(t, d.pages, |d.pages|);
    if Consistent(t, d) {
      NeverLegacy(t, d);
    }
  }
}
