// The data file of a table as rows behind the buffer pool: what one visit to a page does to the rows of the whole file.
module TableFile {
  import opened PoolMap
  import opened BufferPool
  import opened TablePages
  import opened Bytes
  import opened Common
  import opened TableModel
  import B = BTreeModel
  import P = Page
  import W = Wal

  // ---------------------------------------------------------------------------
  // Files
  // ---------------------------------------------------------------------------

  ghost predicate PageIs(q: Pool, k: PageKey, t: Kind, rows: seq<Row>)
    requires Ok(q)
  {
    P.PageOk(Logical(q, k), RecordSize(t)) && P.Records(Logical(q, k), RecordSize(t)) == rows
  }

  /** File `fd` holds these pages of rows, and the pool caches no page beyond them. */
  ghost predicate FileIs(q: Pool, fd: int, t: Kind, pages: RowPages)
    requires Ok(q)
  {
    && (forall i :: 0 <= i < |pages| ==> PageIs(q, PageKey(fd, i), t, pages[i]) == true)
    && (forall k: PageKey :: k in q.index && k.fd == fd ==> k.page < |pages|)
  }

  /** Every file but `fd` reads as before, and no more of it is cached. */
  ghost predicate OthersSame(p: Pool, fd: int, q: Pool)
    requires Ok(p) && Ok(q)
  {
    forall k: PageKey :: k.fd != fd ==> Logical(q, k) == Logical(p, k) && (k in q.index ==> k in p.index)
  }

  /** What one table does to its file leaves the files of all the others alone. */
  lemma OtherFileSame(p: Pool, fd: int, q: Pool, other: int, t: Kind, pages: RowPages)
    requires Ok(p) && Ok(q) && OthersSame(p, fd, q) && other != fd
    ensures FileIs(p, other, t, pages) ==> FileIs(q, other, t, pages)
  {
    forall i | 0 <= i < |pages| && FileIs(p, other, t, pages) ensures PageIs(q, PageKey(other, i), t, pages[i]) == true {
      assert PageIs(p, PageKey(other, i), t, pages[i]) == true;
    }
  }

  lemma PageOf(q: Pool, fd: int, t: Kind, pages: RowPages, i: nat)
    requires Ok(q) && FileIs(q, fd, t, pages) && i < |pages|
    ensures PageIs(q, PageKey(fd, i), t, pages[i])
  {
    assert PageIs(q, PageKey(fd, i), t, pages[i]) == true;
  }

  /** Page `i` was visited and holds `rows` now. */
  lemma PageVisited(p: Pool, fd: int, t: Kind, pages: RowPages, i: nat, q: Pool, rows: seq<Row>)
    requires Ok(p) && Ok(q) && FileIs(p, fd, t, pages) && i < |pages| && OnlyAt(p, PageKey(fd, i), q)
    requires PageIs(q, PageKey(fd, i), t, rows)
    ensures FileIs(q, fd, t, pages[i := rows]) && OthersSame(p, fd, q)
  {
    var pages' := pages[i := rows];
    forall j | 0 <= j < |pages'| ensures PageIs(q, PageKey(fd, j), t, pages'[j]) == true {
      PageOf(p, fd, t, pages, j);
    }
  }

  /** A page was added at the end and holds `rows`. */
  lemma PageAdded(p: Pool, fd: int, t: Kind, pages: RowPages, q: Pool, rows: seq<Row>)
    requires Ok(p) && Ok(q) && FileIs(p, fd, t, pages) && OnlyAt(p, PageKey(fd, |pages|), q)
    requires PageIs(q, PageKey(fd, |pages|), t, rows)
    ensures FileIs(q, fd, t, pages + [rows]) && OthersSame(p, fd, q)
  {
    var pages' := pages + [rows];
    forall j | 0 <= j < |pages'| ensures PageIs(q, PageKey(fd, j), t, pages'[j]) == true {
      if j < |pages| {
        PageOf(p, fd, t, pages, j);
      }
    }
  }

  // ---------------------------------------------------------------------------
  // Visits
  // ---------------------------------------------------------------------------

  /** No page is pinned and the file holds these rows. */
  ghost predicate Stored(pool: BufferPool, fd: int, t: Kind, pages: RowPages)
    reads pool, pool.Repr()
  {
    pool.Valid() && Unpinned(pool.State()) && fd >= 0 && FileIs(pool.State(), fd, t, pages)
  }

  /** Page `i` is pinned and `buf` is its buffer; before the visit the pool was `q` and the file held `pages`. */
  ghost predicate Visiting(pool: BufferPool, fd: int, t: Kind, pages: RowPages, i: nat, buf: array<Byte>, q: Pool)
    reads pool, pool.Repr(), buf
  {
    && pool.Valid() && Ok(q) && fd >= 0 && i < |pages| && FileIs(q, fd, t, pages)
    && Holding(q, PageKey(fd, i), pool.State(), buf[..]) && InBuffer(pool, PageKey(fd, i), buf)
    && P.PageOk(buf[..], RecordSize(t))
  }

  /** The rows in a page buffer. */
  ghost function BufRows(buf: array<Byte>, t: Kind): seq<Row>
    requires P.PageOk(buf[..], RecordSize(t))
    reads buf
  {
    P.Records(buf[..], RecordSize(t))
  }

  /** A visit that has only read so far: the page may be unpinned as it is. */
  ghost predicate Reading(pool: BufferPool, fd: int, t: Kind, pages: RowPages, i: nat, buf: array<Byte>, q: Pool)
    reads pool, pool.Repr(), buf
  {
    Visiting(pool, fd, t, pages, i, buf, q) && Saved(pool.State(), PageKey(fd, i)) && BufRows(buf, t) == pages[i]
  }

  method Visit(pool: BufferPool, fd: int, t: Kind, i: nat, ghost pages: RowPages) returns (buf: array<Byte>)
    requires Stored(pool, fd, t, pages) == true && i < |pages|
    modifies pool.Repr()
    ensures Reading(pool, fd, t, pages, i, buf, old(pool.State())) == true
    ensures Visiting(pool, fd, t, pages, i, buf, old(pool.State())) == true
    ensures BufRows(buf, t) == pages[i] && pool.Repr() == old(pool.Repr()) && buf in pool.Repr()
  {
    PageOf(pool.State(), fd, t, pages, i);
    buf := Take(pool, PageKey(fd, i));
  }

  method Leave(pool: BufferPool, fd: int, t: Kind, i: nat, buf: array<Byte>, ghost pages: RowPages, ghost q: Pool)
    requires Reading(pool, fd, t, pages, i, buf, q) == true
    modifies pool.Repr()
    ensures Stored(pool, fd, t, pages) == true && OthersSame(q, fd, pool.State()) == true && pool.Repr() == old(pool.Repr())
  {
    ghost var page, rows := buf[..], BufRows(buf, t);
    GiveBack(pool, PageKey(fd, i), q, page);
    PageVisited(q, fd, t, pages, i, pool.State(), rows);
    assert pages[i := rows] == pages;
  }

  method LeaveChanged(pool: BufferPool, fd: int, t: Kind, i: nat, buf: array<Byte>, ghost pages: RowPages, ghost q: Pool)
    requires Visiting(pool, fd, t, pages, i, buf, q) == true
    modifies pool.Repr()
    ensures Stored(pool, fd, t, pages[i := old(BufRows(buf, t))]) == true && OthersSame(q, fd, pool.State()) == true
    ensures pool.Repr() == old(pool.Repr())
  {
    ghost var page, rows := buf[..], BufRows(buf, t);
    PutBack(pool, PageKey(fd, i), q, page);
    PageVisited(q, fd, t, pages, i, pool.State(), rows);
  }

  method AddRow(pool: BufferPool, fd: int, t: Kind, i: nat, buf: array<Byte>, r: Row, ghost pages: RowPages, ghost q: Pool)
    returns (slot: Option<nat>)
    requires Visiting(pool, fd, t, pages, i, buf, q) == true && RowOk(t, r)
    modifies buf
    ensures Visiting(pool, fd, t, pages, i, buf, q) == true && pool.Repr() == old(pool.Repr())
    ensures slot == if |old(BufRows(buf, t))| < P.MaxRecords(RecordSize(t)) then Some(|old(BufRows(buf, t))|) else None
    ensures BufRows(buf, t) == old(BufRows(buf, t)) + if slot.Some? then [r] else []
  {
    slot := AddSlot(pool, PageKey(fd, i), buf, r, RecordSize(t), q, buf[..]);
  }

  method ChangeRow(pool: BufferPool, fd: int, t: Kind, i: nat, buf: array<Byte>, slot: nat, r: Row, ghost pages: RowPages, ghost q: Pool)
    returns (ok: bool)
    requires Visiting(pool, fd, t, pages, i, buf, q) == true && RowOk(t, r)
    modifies buf
    ensures Visiting(pool, fd, t, pages, i, buf, q) == true && pool.Repr() == old(pool.Repr())
    ensures ok == (slot < |old(BufRows(buf, t))|)
    ensures BufRows(buf, t) == if ok then old(BufRows(buf, t))[slot := r] else old(BufRows(buf, t))
  {
    ok := SetSlot(pool, PageKey(fd, i), buf, slot, r, RecordSize(t), q, buf[..]);
  }

  method MarkRow(pool: BufferPool, fd: int, t: Kind, i: nat, buf: array<Byte>, slot: nat, ghost pages: RowPages, ghost q: Pool)
    requires Visiting(pool, fd, t, pages, i, buf, q) == true && slot < |BufRows(buf, t)|
    modifies buf
    ensures Visiting(pool, fd, t, pages, i, buf, q) == true && pool.Repr() == old(pool.Repr())
    ensures RowOk(t, old(BufRows(buf, t))[slot]) && BufRows(buf, t) == old(BufRows(buf, t))[slot := Marked(t, old(BufRows(buf, t))[slot])]
  {
    MarkSlot(pool, PageKey(fd, i), buf, slot, DeletedOffset(t), RecordSize(t), q, buf[..]);
  }

  /** page_alloc */
  method Extend(pool: BufferPool, fd: int, t: Kind, n: nat, ghost pages: RowPages)
    requires Stored(pool, fd, t, pages) == true && n == |pages| < MAX_PAGES
    modifies pool.disk
    ensures Stored(pool, fd, t, pages + [[]]) == true && OthersSame(old(pool.State()), fd, pool.State()) == true
    ensures pool.Repr() == old(pool.Repr())
  {
    ghost var before := pool.State();
    AllocPage(pool, PageKey(fd, n), RecordSize(t));
    PageAdded(before, fd, t, pages, pool.State(), []);
  }

  method RowAt(pool: BufferPool, fd: int, t: Kind, i: nat, buf: array<Byte>, slot: nat, ghost pages: RowPages, ghost q: Pool)
    returns (r: Option<Row>)
    requires Reading(pool, fd, t, pages, i, buf, q) == true && i < |pages|
    ensures r == if slot < |pages[i]| then Some(pages[i][slot]) else None
  {
    r := P.GetRecord(buf, slot, RecordSize(t));
  }

  /** A visit begins by reading one slot. */
  method VisitRow(pool: BufferPool, fd: int, t: Kind, i: nat, slot: nat, ghost pages: RowPages)
    returns (buf: array<Byte>, r: Option<Row>)
    requires Stored(pool, fd, t, pages) == true && i < |pages|
    modifies pool.Repr()
    ensures Reading(pool, fd, t, pages, i, buf, old(pool.State())) == true
    ensures Visiting(pool, fd, t, pages, i, buf, old(pool.State())) == true
    ensures BufRows(buf, t) == pages[i] && pool.Repr() == old(pool.Repr()) && buf in pool.Repr()
    ensures r == if slot < |pages[i]| then Some(pages[i][slot]) else None
  {
    buf := Visit(pool, fd, t, i, pages);
    r := RowAt(pool, fd, t, i, buf, slot, pages, old(pool.State()));
  }

  /** A visit that only reads one slot. */
  method ReadRow(pool: BufferPool, fd: int, t: Kind, i: nat, slot: nat, ghost pages: RowPages) returns (r: Option<Row>)
    requires Stored(pool, fd, t, pages) == true && i < |pages|
    modifies pool.Repr()
    ensures Stored(pool, fd, t, pages) == true && OthersSame(old(pool.State()), fd, pool.State()) == true
    ensures pool.Repr() == old(pool.Repr())
    ensures r == if slot < |pages[i]| then Some(pages[i][slot]) else None
  {
    ghost var q := pool.State();
    var buf;
    buf, r := VisitRow(pool, fd, t, i, slot, pages);
    Leave(pool, fd, t, i, buf, pages, q);
  }

  // ---------------------------------------------------------------------------
  // Log first, page second
  // ---------------------------------------------------------------------------

  /** A record goes to the log while a page is pinned: the log is ahead now, the page still holds the old rows. */
  method LogChange(wal: W.Wal, op: W.Op, t: Kind, id: nat, old_: Option<Row>, new_: Option<Row>,
                   pool: BufferPool, fd: int, i: nat, buf: array<Byte>, ghost pages: RowPages, ghost q: Pool)
    requires Visiting(pool, fd, t, pages, i, buf, q) == true && wal.Valid() == true && wal.nextLsn <= MAX_LSN
    requires wal !in pool.Repr() && wal.file !in pool.Repr()
    requires id < B.KEY_LIMIT && (old_.Some? ==> RowOk(t, old_.value)) && (new_.Some? ==> RowOk(t, new_.value))
    modifies wal, wal.file
    ensures Visiting(pool, fd, t, pages, i, buf, q) == true && wal.Valid() == true && pool.Repr() == old(pool.Repr())
    ensures wal.log == old(wal.log) + [W.Record(|old(wal.log)| + 1, 0, op, Code(t), id,
                                                W.Image(old_, RecordSize(t)), W.Image(new_, RecordSize(t)))]
    ensures BufRows(buf, t) == old(BufRows(buf, t))
  {
    var _ := wal.Append(0, op, Code(t), id, old_, new_, RecordSize(t));
    assert Visiting(pool, fd, t, pages, i, buf, q) == true;
  }

  const MAX_LSN := 0xFFFF_FFFF_FFFF_FFFF

  /** The record is laid over its slot, and the visit ends. */
  method PutAndLeave(pool: BufferPool, fd: int, t: Kind, p: B.RecordPtr, buf: array<Byte>, r: Row, ghost pages: RowPages, ghost q: Pool)
    requires Has(pages, p) && RowOk(t, r)
    requires Visiting(pool, fd, t, pages, p.pageId, buf, q) == true && BufRows(buf, t) == pages[p.pageId] && buf in pool.Repr()
    modifies pool.Repr()
    ensures Stored(pool, fd, t, PutRow(pages, p, r)) == true && OthersSame(q, fd, pool.State()) == true
    ensures pool.Repr() == old(pool.Repr())
  {
    var _ := ChangeRow(pool, fd, t, p.pageId, buf, p.slotId, r, pages, q);
    LeaveChanged(pool, fd, t, p.pageId, buf, pages, q);
  }

  /** The part of table_update after the index lookup. */
  method ReplaceRow(pool: BufferPool, wal: W.Wal, fd: int, t: Kind, p: B.RecordPtr, id: nat, r: Row, ghost pages: RowPages)
    returns (ok: bool)
    requires Stored(pool, fd, t, pages) == true && Has(pages, p) && wal.Valid() == true && wal.nextLsn <= MAX_LSN
    requires wal !in pool.Repr() && wal.file !in pool.Repr()
    requires id < B.KEY_LIMIT && RowOk(t, r) && RowOk(t, RowIn(pages, p))
    modifies pool.Repr(), wal, wal.file
    ensures wal.Valid() == true && pool.Repr() == old(pool.Repr())
    ensures Stored(pool, fd, t, if ok then PutRow(pages, p, r) else pages) == true
    ensures ok == IsLive(t, RowIn(pages, p)) && OthersSame(old(pool.State()), fd, pool.State()) == true
    ensures wal.log == old(wal.log) + if ok then [W.Record(|old(wal.log)| + 1, 0, W.Update, Code(t), id, RowIn(pages, p), r)] else []
  {
    ghost var q := pool.State();
    var buf, before := VisitRow(pool, fd, t, p.pageId, p.slotId, pages);
    if before.None? || !IsLive(t, before.value) {
      Leave(pool, fd, t, p.pageId, buf, pages, q);
      return false;
    }
    LogChange(wal, W.Update, t, id, before, Some(r), pool, fd, p.pageId, buf, pages, q);
    PutAndLeave(pool, fd, t, p, buf, r, pages, q);
    return true;
  }

  /** The middle of table_delete: the record is logged, then flagged in its page. */
  method FlagRow(pool: BufferPool, wal: W.Wal, fd: int, t: Kind, p: B.RecordPtr, id: nat, before: Row, buf: array<Byte>,
                 ghost pages: RowPages, ghost q: Pool)
    requires Has(pages, p) && RowOk(t, before) && before == RowIn(pages, p)
    requires Visiting(pool, fd, t, pages, p.pageId, buf, q) == true && BufRows(buf, t) == pages[p.pageId] && buf in pool.Repr()
    requires wal.Valid() == true && wal.nextLsn <= MAX_LSN && wal !in pool.Repr() && wal.file !in pool.Repr() && id < B.KEY_LIMIT
    modifies buf, wal, wal.file
    ensures Visiting(pool, fd, t, pages, p.pageId, buf, q) == true && BufRows(buf, t) == pages[p.pageId][p.slotId := Marked(t, before)]
    ensures wal.Valid() == true && pool.Repr() == old(pool.Repr())
    ensures wal.log == old(wal.log) + [W.Record(|old(wal.log)| + 1, 0, W.Delete, Code(t), id, before, W.Image(None, RecordSize(t)))]
  {
    LogChange(wal, W.Delete, t, id, Some(before), None, pool, fd, p.pageId, buf, pages, q);
    MarkRow(pool, fd, t, p.pageId, buf, p.slotId, pages, q);
  }

  /** page_is_full of a page being read. */
  method HasRoom(pool: BufferPool, fd: int, t: Kind, i: nat, buf: array<Byte>, ghost pages: RowPages, ghost q: Pool)
    returns (room: bool)
    requires Reading(pool, fd, t, pages, i, buf, q) == true
    ensures i < |pages| && room == (|pages[i]| < P.MaxRecords(RecordSize(t)))
  {
    room := !P.IsFull(P.CountOf(buf[..]), RecordSize(t));
  }

  method PageHasRoom(pool: BufferPool, fd: int, t: Kind, i: nat, ghost pages: RowPages) returns (room: bool)
    requires Stored(pool, fd, t, pages) == true && i < |pages|
    modifies pool.Repr()
    ensures Stored(pool, fd, t, pages) == true && OthersSame(old(pool.State()), fd, pool.State()) == true
    ensures pool.Repr() == old(pool.Repr()) && room == (|pages[i]| < P.MaxRecords(RecordSize(t)))
  {
    ghost var q := pool.State();
    var buf := Visit(pool, fd, t, i, pages);
    room := HasRoom(pool, fd, t, i, buf, pages, q);
    Leave(pool, fd, t, i, buf, pages, q);
  }

  /** page_is_full of the last page. */
  method LastHasRoom(pool: BufferPool, fd: int, t: Kind, n: nat, ghost pages: RowPages) returns (room: bool)
    requires Stored(pool, fd, t, pages) == true && n == |pages|
    modifies pool.Repr()
    ensures Stored(pool, fd, t, pages) == true && OthersSame(old(pool.State()), fd, pool.State()) == true
    ensures pool.Repr() == old(pool.Repr()) && room == Roomy(t, pages)
  {
    ghost var q := pool.State();
    SameAsItself(q, fd);
    if n == 0 {
      return false;
    }
    room := PageHasRoom(pool, fd, t, n - 1, pages);
  }

  lemma RoomFor(t: Kind, pages: RowPages)
    ensures 0 < P.MaxRecords(RecordSize(t))
    ensures var n := |pages|; !Roomy(t, pages) ==> forall r :: (pages + [[]])[n := (pages + [[]])[n] + [r]] == AppendRow(t, pages, r)
  {
    var n := |pages|;
    assert (pages + [[]])[n] == [];
    forall r: Row ensures (pages + [[]])[n := [] + [r]] == pages + [[r]] {
      assert [] + [r] == [r];
    }
  }

  /** The page a new row goes to: the last one, or a new one behind it. */
  method MakeRoom(pool: BufferPool, fd: int, t: Kind, n: nat, ghost pages: RowPages) returns (i: nat, ghost pages': RowPages)
    requires Stored(pool, fd, t, pages) == true && n == |pages| < MAX_PAGES
    modifies pool.Repr()
    ensures Stored(pool, fd, t, pages') == true && OthersSame(old(pool.State()), fd, pool.State()) == true
    ensures pool.Repr() == old(pool.Repr())
    ensures i < |pages'| && |pages'[i]| < P.MaxRecords(RecordSize(t)) && B.RecordPtr(i, |pages'[i]|) == NextPtr(t, pages)
    ensures forall r :: pages'[i := pages'[i] + [r]] == AppendRow(t, pages, r)
  {
    RoomFor(t, pages);
    ghost var p := pool.State();
    var room := LastHasRoom(pool, fd, t, n, pages);
    if room {
      return n - 1, pages;
    }
    ghost var q := pool.State();
    Extend(pool, fd, t, n, pages);
    SameThenSame(p, fd, q, pool.State());
    return n, pages + [[]];
  }

  const MAX_PAGES := 0xFFFF_FFFF

  /** The row goes into page `i`. */
  method PlaceRow(pool: BufferPool, fd: int, t: Kind, i: nat, r: Row, ghost pages: RowPages) returns (slot: Option<nat>)
    requires Stored(pool, fd, t, pages) == true && i < |pages| && RowOk(t, r)
    modifies pool.Repr()
    ensures slot == if |pages[i]| < P.MaxRecords(RecordSize(t)) then Some(|pages[i]|) else None
    ensures Stored(pool, fd, t, if slot.Some? then pages[i := pages[i] + [r]] else pages) == true
    ensures OthersSame(old(pool.State()), fd, pool.State()) == true && pool.Repr() == old(pool.Repr())
  {
    ghost var q := pool.State();
    var buf := Visit(pool, fd, t, i, pages);
    slot := AddRow(pool, fd, t, i, buf, r, pages, q);
    LeaveChanged(pool, fd, t, i, buf, pages, q);
    assert pages[i := pages[i]] == pages && pages[i] + [] == pages[i];
  }

  method LogInsert(wal: W.Wal, t: Kind, id: nat, r: Row, pool: BufferPool, fd: int, ghost pages: RowPages)
    requires Stored(pool, fd, t, pages) == true && wal.Valid() == true && wal.nextLsn <= MAX_LSN
    requires wal !in pool.Repr() && wal.file !in pool.Repr() && id < B.KEY_LIMIT && RowOk(t, r)
    modifies wal, wal.file
    ensures Stored(pool, fd, t, pages) == true && pool.State() == old(pool.State()) && pool.Repr() == old(pool.Repr())
    ensures wal.Valid() == true
    ensures wal.log == old(wal.log) + [W.Record(|old(wal.log)| + 1, 0, W.Insert, Code(t), id, W.Image(None, RecordSize(t)), r)]
  {
    var _ := wal.Append(0, W.Insert, Code(t), id, None, Some(r), RecordSize(t));
  }

  /** The part of table_insert before the index: a page with room, the log, the page. */
  method StoreRow(pool: BufferPool, wal: W.Wal, fd: int, t: Kind, n: nat, id: nat, r: Row, ghost pages: RowPages)
    returns (p: B.RecordPtr)
    requires Stored(pool, fd, t, pages) == true && n == |pages| < MAX_PAGES && wal.Valid() == true && wal.nextLsn <= MAX_LSN
    requires wal !in pool.Repr() && wal.file !in pool.Repr()
    requires id < B.KEY_LIMIT && RowOk(t, r)
    modifies pool.Repr(), wal, wal.file
    ensures Stored(pool, fd, t, AppendRow(t, pages, r)) == true && p == NextPtr(t, pages)
    ensures wal.Valid() == true && pool.Repr() == old(pool.Repr())
    ensures OthersSame(old(pool.State()), fd, pool.State()) == true
    ensures wal.log == old(wal.log) + [W.Record(|old(wal.log)| + 1, 0, W.Insert, Code(t), id, W.Image(None, RecordSize(t)), r)]
  {
    ghost var q := pool.State();
    var i;
    ghost var roomy;
    i, roomy := MakeRoom(pool, fd, t, n, pages);
    ghost var q' := pool.State();
    LogInsert(wal, t, id, r, pool, fd, roomy);
    var slot := PlaceRow(pool, fd, t, i, r, roomy);
    SameThenSame(q, fd, q', pool.State());
    assert wal.Valid() == true;
    return B.RecordPtr(i, slot.value);
  }

  /** Another table on the same pool: its file holds what it held before this operation. */
  lemma OtherTableStays(pool: BufferPool, p: Pool, fd: int, other: int, t: Kind, pages: RowPages)
    requires pool.Valid() && Unpinned(pool.State()) && Ok(p) && OthersSame(p, fd, pool.State())
    requires other != fd && other >= 0 && FileIs(p, other, t, pages)
    ensures Stored(pool, other, t, pages)
  {
    OtherFileSame(p, fd, pool.State(), other, t, pages);
  }

  lemma SameAsItself(p: Pool, fd: int)
    requires Ok(p)
    ensures OthersSame(p, fd, p)
  {
  }

  lemma SameThenSame(p: Pool, fd: int, q: Pool, r: Pool)
    requires Ok(p) && Ok(q) && Ok(r) && OthersSame(p, fd, q) && OthersSame(q, fd, r)
    ensures OthersSame(p, fd, r)
  {
  }
}
