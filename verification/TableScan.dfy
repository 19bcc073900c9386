// Walks over all pages of a table: scans, counts, and the search for the largest id when a table is opened.
module TableScan {
  import opened PoolMap
  import opened BufferPool
  import opened Bytes
  import opened Common
  import opened TableModel
  import opened TableHistory
  import opened TableFile
  import P = Page
  import opened BTreeModel

  // ---------------------------------------------------------------------------
  // One page
  // ---------------------------------------------------------------------------

  /** The page in the buffer holds these rows. */
  ghost predicate Holds(buf: array<Byte>, t: Kind, rows: seq<Row>)
    reads buf
  {
    P.PageOk(buf[..], RecordSize(t)) && BufRows(buf, t) == rows
  }

  method RowCount(buf: array<Byte>, t: Kind, ghost rows: seq<Row>) returns (n: nat)
    requires Holds(buf, t, rows) == true
    ensures n == |rows|
  {
    n := P.CountOf(buf[..]);
  }

  method RowOf(buf: array<Byte>, t: Kind, slot: nat, ghost rows: seq<Row>) returns (r: Row)
    requires Holds(buf, t, rows) == true && slot < |rows|
    ensures r == rows[slot] && RowOk(t, r)
  {
    var found := P.GetRecord(buf, slot, RecordSize(t));
    r := found.value;
  }

  /** One slot: its row is a result if it is live and the filter accepts it. */
  method ScanSlot(buf: array<Byte>, t: Kind, f: Row -> bool, max: nat, found: seq<Row>, slot: nat, ghost base: seq<Row>, ghost rows: seq<Row>)
    returns (results: seq<Row>)
    requires Holds(buf, t, rows) == true && slot < |rows| && |found| < max
    requires IsFirst(found, base + WantedIn(t, f, rows, slot), max) == true
    ensures IsFirst(results, base + WantedIn(t, f, rows, slot + 1), max) == true
  {
    var r := RowOf(buf, t, slot, rows);
    FirstNext(t, f, rows, slot, base, max, found);
    results := if IsLive(t, r) && f(r) then found + [r] else found;
  }

  /** The slots of one page: live rows the filter accepts, until `max` are found. */
  method ScanPage(buf: array<Byte>, t: Kind, f: Row -> bool, max: nat, found: seq<Row>, ghost base: seq<Row>, ghost rows: seq<Row>)
    returns (results: seq<Row>)
    requires Holds(buf, t, rows) == true && IsFirst(found, base, max) == true
    ensures IsFirst(results, base + WantedIn(t, f, rows, |rows|), max) == true
  {
    results := found;
    var count := RowCount(buf, t, rows);
    var slot := 0;
    AppendNothing(base);
    while slot < count && |results| < max
      invariant slot <= count
      invariant IsFirst(results, base + WantedIn(t, f, rows, slot), max) == true
      decreases count - slot
    {
      results := ScanSlot(buf, t, f, max, results, slot, base, rows);
      slot := slot + 1;
    }
    FirstRest(t, f, rows, slot, base, max, results);
  }

  lemma FirstNext(t: Kind, f: Row -> bool, rows: seq<Row>, slot: nat, base: seq<Row>, max: nat, results: seq<Row>)
    requires slot < |rows| && RowOk(t, rows[slot]) && IsFirst(results, base + WantedIn(t, f, rows, slot), max) == true && |results| < max
    ensures var r := rows[slot];
            IsFirst(if IsLive(t, r) && f(r) then results + [r] else results, base + WantedIn(t, f, rows, slot + 1), max) == true
  {
  }

  lemma FirstRest(t: Kind, f: Row -> bool, rows: seq<Row>, slot: nat, base: seq<Row>, max: nat, results: seq<Row>)
    requires slot <= |rows| && IsFirst(results, base + WantedIn(t, f, rows, slot), max) == true && (slot < |rows| ==> |results| >= max)
    ensures IsFirst(results, base + WantedIn(t, f, rows, |rows|), max) == true
  {
    WantedGrows(t, f, rows, slot, |rows|);
  }

  lemma {:induction false} WantedGrows(t: Kind, f: Row -> bool, rows: seq<Row>, i: nat, j: nat)
    requires i <= j <= |rows|
    ensures WantedIn(t, f, rows, i) <= WantedIn(t, f, rows, j)
    decreases j
  {
    if i < j {
      WantedGrows(t, f, rows, i, j - 1);
    }
  }

  /** Rows of this kind. */
  ghost predicate RowsOk(t: Kind, rows: seq<Row>) {
    forall j :: 0 <= j < |rows| ==> RowOk(t, rows[j])
  }

  /** A junction row among the first `n` has no id: the file was written by an older program. */
  ghost predicate LegacyIn(t: Kind, rows: seq<Row>, n: nat)
    requires RowsOk(t, rows) && n <= |rows|
  {
    t == BookingSeats && exists j :: 0 <= j < n && KeyOf(t, rows[j]) == 0
  }

  lemma LegacyNext(t: Kind, rows: seq<Row>, slot: nat)
    requires RowsOk(t, rows) && slot < |rows|
    ensures RowOk(t, rows[slot])
    ensures LegacyIn(t, rows, slot + 1) == (LegacyIn(t, rows, slot) || (t == BookingSeats && KeyOf(t, rows[slot]) == 0))
    ensures t == BookingSeats && KeyOf(t, rows[slot]) == 0 ==> LegacyIn(t, rows, |rows|)
  {
  }

  /** No junction row without an id so far, and `m` is the largest key. */
  ghost predicate Walked(t: Kind, rows: seq<Row>, slot: nat, low: int, m: int)
    requires RowsOk(t, rows) && slot <= |rows|
  {
    !LegacyIn(t, rows, slot) && m == MaxIn(t, rows, slot, low)
  }

  lemma WalkEnds(t: Kind, rows: seq<Row>, low: int, m: int)
    requires RowsOk(t, rows)
    ensures Walked(t, rows, 0, low, low) == true
    ensures Walked(t, rows, |rows|, low, m) ==> !LegacyIn(t, rows, |rows|) && m == MaxIn(t, rows, |rows|, low)
  {
  }

  method MaxSlot(buf: array<Byte>, t: Kind, slot: nat, max: int, ghost low: int, ghost rows: seq<Row>) returns (legacy: bool, m: int)
    requires Holds(buf, t, rows) == true && RowsOk(t, rows) == true && slot < |rows|
    requires Walked(t, rows, slot, low, max) == true
    ensures if legacy then LegacyIn(t, rows, |rows|) == true else Walked(t, rows, slot + 1, low, m) == true
  {
    var r := RowOf(buf, t, slot, rows);
    LegacyNext(t, rows, slot);
    var id := KeyOf(t, r);
    legacy := t == BookingSeats && id == 0;
    m := if legacy then 0 else Max(max, id);
  }

  /** The largest key on one page, and whether a junction row there has no id. */
  method MaxInPage(buf: array<Byte>, t: Kind, low: int, ghost rows: seq<Row>) returns (legacy: bool, m: int)
    requires Holds(buf, t, rows) == true && RowsOk(t, rows) == true
    ensures legacy == LegacyIn(t, rows, |rows|)
    ensures !legacy ==> m == MaxIn(t, rows, |rows|, low)
  {
    legacy, m := false, low;
    var count := RowCount(buf, t, rows);
    var slot := 0;
    WalkEnds(t, rows, low, m);
    while slot < count
      invariant slot <= count && !legacy && Walked(t, rows, slot, low, m) == true
    {
      legacy, m := MaxSlot(buf, t, slot, m, low, rows);
      if legacy {
        return;
      }
      slot := slot + 1;
    }
    WalkEnds(t, rows, low, m);
  }

  // ---------------------------------------------------------------------------
  // All pages
  // ---------------------------------------------------------------------------

  method VisitAndScan(pool: BufferPool, fd: int, t: Kind, i: nat, f: Row -> bool, max: nat, found: seq<Row>, ghost base: seq<Row>,
                      ghost pages: RowPages)
    returns (buf: array<Byte>, results: seq<Row>)
    requires Stored(pool, fd, t, pages) == true && i < |pages| && IsFirst(found, base, max) == true
    modifies pool.Repr()
    ensures Reading(pool, fd, t, pages, i, buf, old(pool.State())) == true && pool.Repr() == old(pool.Repr())
    ensures IsFirst(results, base + WantedIn(t, f, pages[i], |pages[i]|), max) == true
  {
    buf := Visit(pool, fd, t, i, pages);
    results := ScanBuffer(pool, fd, t, i, buf, f, max, found, base, pages, old(pool.State()));
  }

  method ScanBuffer(pool: BufferPool, fd: int, t: Kind, i: nat, buf: array<Byte>, f: Row -> bool, max: nat, found: seq<Row>,
                    ghost base: seq<Row>, ghost pages: RowPages, ghost q: Pool)
    returns (results: seq<Row>)
    requires Reading(pool, fd, t, pages, i, buf, q) == true && i < |pages| && IsFirst(found, base, max) == true
    ensures IsFirst(results, base + WantedIn(t, f, pages[i], |pages[i]|), max) == true
  {
    results := ScanPage(buf, t, f, max, found, base, pages[i]);
  }

  /** One page of a scan. */
  method ScanVisit(pool: BufferPool, fd: int, t: Kind, i: nat, f: Row -> bool, max: nat, found: seq<Row>, ghost pages: RowPages, ghost p: Pool)
    returns (results: seq<Row>)
    requires Stored(pool, fd, t, pages) == true && i < |pages| && IsFirst(found, WantedTo(t, f, pages, i), max) == true
    requires Ok(p) && OthersSame(p, fd, pool.State()) == true
    modifies pool.Repr()
    ensures Stored(pool, fd, t, pages) == true && OthersSame(p, fd, pool.State()) == true
    ensures pool.Repr() == old(pool.Repr())
    ensures IsFirst(results, WantedTo(t, f, pages, i + 1), max) == true
  {
    ghost var q := pool.State();
    var buf;
    buf, results := VisitAndScan(pool, fd, t, i, f, max, found, WantedTo(t, f, pages, i), pages);
    Leave(pool, fd, t, i, buf, pages, q);
    SameThenSame(p, fd, q, pool.State());
  }

  /** table_scan */
  method ScanFile(pool: BufferPool, fd: int, t: Kind, n: nat, f: Row -> bool, max: nat, ghost pages: RowPages)
    returns (results: seq<Row>)
    requires Stored(pool, fd, t, pages) == true && n == |pages|
    modifies pool.Repr()
    ensures Stored(pool, fd, t, pages) == true && OthersSame(old(pool.State()), fd, pool.State()) == true
    ensures pool.Repr() == old(pool.Repr())
    ensures IsFirst(results, WantedTo(t, f, pages, n), max) == true
  {
    ghost var p := pool.State();
    SameAsItself(p, fd);
    results := [];
    var pid := 0;
    while pid < n && |results| < max
      invariant pid <= n && pool.Repr() == old(pool.Repr())
      invariant Stored(pool, fd, t, pages) == true && OthersSame(p, fd, pool.State()) == true
      invariant IsFirst(results, WantedTo(t, f, pages, pid), max) == true
      decreases n - pid
    {
      results := ScanVisit(pool, fd, t, pid, f, max, results, pages, p);
      pid := pid + 1;
    }
    FirstPagesRest(t, f, pages, pid, max, results);
  }

  lemma FirstPagesRest(t: Kind, f: Row -> bool, pages: RowPages, i: nat, max: nat, results: seq<Row>)
    requires i <= |pages| && IsFirst(results, WantedTo(t, f, pages, i), max) == true && (i < |pages| ==> |results| >= max)
    ensures IsFirst(results, WantedTo(t, f, pages, |pages|), max) == true
  {
    PagesGrow(t, f, pages, i, |pages|);
  }

  lemma {:induction false} PagesGrow(t: Kind, f: Row -> bool, pages: RowPages, i: nat, j: nat)
    requires i <= j <= |pages|
    ensures WantedTo(t, f, pages, i) <= WantedTo(t, f, pages, j)
    decreases j
  {
    if i < j {
      PagesGrow(t, f, pages, i, j - 1);
    }
  }

  method VisitAndCount(pool: BufferPool, fd: int, t: Kind, i: nat, ghost pages: RowPages) returns (buf: array<Byte>, live: nat)
    requires Stored(pool, fd, t, pages) == true && i < |pages|
    modifies pool.Repr()
    ensures Reading(pool, fd, t, pages, i, buf, old(pool.State())) == true && pool.Repr() == old(pool.Repr())
    ensures live == |WantedIn(t, r => true, pages[i], |pages[i]|)|
  {
    ghost var q := pool.State();
    buf := Visit(pool, fd, t, i, pages);
    live := CountPage(buf, t, pages[i]);
    assert Reading(pool, fd, t, pages, i, buf, q) == true;
  }

  /** The live slots of one page. */
  method CountVisit(pool: BufferPool, fd: int, t: Kind, i: nat, count: nat, ghost pages: RowPages, ghost p: Pool) returns (count': nat)
    requires Stored(pool, fd, t, pages) == true && i < |pages| && count == |WantedTo(t, r => true, pages, i)|
    requires Ok(p) && OthersSame(p, fd, pool.State()) == true
    modifies pool.Repr()
    ensures Stored(pool, fd, t, pages) == true && OthersSame(p, fd, pool.State()) == true
    ensures pool.Repr() == old(pool.Repr())
    ensures count' == |WantedTo(t, r => true, pages, i + 1)|
  {
    ghost var q := pool.State();
    var buf, live := VisitAndCount(pool, fd, t, i, pages);
    count' := count + live;
    Leave(pool, fd, t, i, buf, pages, q);
    SameThenSame(p, fd, q, pool.State());
  }

  method CountSlot(buf: array<Byte>, t: Kind, slot: nat, live: nat, ghost rows: seq<Row>) returns (live': nat)
    requires Holds(buf, t, rows) == true && slot < |rows| && live == |WantedIn(t, r => true, rows, slot)|
    ensures live' == |WantedIn(t, r => true, rows, slot + 1)|
  {
    var r := RowOf(buf, t, slot, rows);
    live' := if IsLive(t, r) then live + 1 else live;
  }

  method CountPage(buf: array<Byte>, t: Kind, ghost rows: seq<Row>) returns (live: nat)
    requires Holds(buf, t, rows) == true
    ensures live == |WantedIn(t, r => true, rows, |rows|)|
  {
    live := 0;
    var n := RowCount(buf, t, rows);
    var slot := 0;
    while slot < n
      invariant slot <= n
      invariant live == |WantedIn(t, r => true, rows, slot)|
    {
      live := CountSlot(buf, t, slot, live, rows);
      slot := slot + 1;
    }
  }

  /** table_count */
  method CountFile(pool: BufferPool, fd: int, t: Kind, n: nat, ghost pages: RowPages) returns (count: nat)
    requires Stored(pool, fd, t, pages) == true && n == |pages|
    modifies pool.Repr()
    ensures Stored(pool, fd, t, pages) == true && OthersSame(old(pool.State()), fd, pool.State()) == true
    ensures pool.Repr() == old(pool.Repr())
    ensures count == |WantedTo(t, r => true, pages, n)|
  {
    ghost var p := pool.State();
    SameAsItself(p, fd);
    count := 0;
    var pid := 0;
    while pid < n
      invariant pid <= n && pool.Repr() == old(pool.Repr())
      invariant Stored(pool, fd, t, pages) == true && OthersSame(p, fd, pool.State()) == true
      invariant count == |WantedTo(t, r => true, pages, pid)|
    {
      count := CountVisit(pool, fd, t, pid, count, pages, p);
      pid := pid + 1;
    }
  }

  // ---------------------------------------------------------------------------
  // The largest id
  // ---------------------------------------------------------------------------

  /** One of the first `n` pages holds a junction row without an id. */
  ghost predicate LegacyTo(t: Kind, pages: RowPages, n: nat)
    requires PagesOk(t, pages) && n <= |pages|
  {
    exists i :: 0 <= i < n && LegacyPage(t, pages, i)
  }

  ghost predicate LegacyPage(t: Kind, pages: RowPages, i: nat)
    requires PagesOk(t, pages) && i < |pages|
  {
    assert PageRows(t, pages, i);
    LegacyIn(t, pages[i], |pages[i]|)
  }

  /** A file is a legacy file exactly when some junction row on its pages has id 0. */
  lemma LegacyMeans(t: Kind, pages: RowPages)
    requires PagesOk(t, pages)
    ensures LegacyTo(t, pages, |pages|) <==> t == BookingSeats && exists p: RecordPtr :: Has(pages, p) && KeyAt(t, pages, p) == 0
  {
    if LegacyTo(t, pages, |pages|) {
      var i :| 0 <= i < |pages| && LegacyPage(t, pages, i);
      assert PageRows(t, pages, i);
      var j :| 0 <= j < |pages[i]| && KeyOf(t, pages[i][j]) == 0;
      assert Has(pages, RecordPtr(i, j)) && KeyAt(t, pages, RecordPtr(i, j)) == 0;
    }
    if t == BookingSeats {
      forall p: RecordPtr | Has(pages, p) && KeyAt(t, pages, p) == 0 ensures LegacyPage(t, pages, p.pageId) {
        assert PageRows(t, pages, p.pageId);
        assert KeyOf(t, pages[p.pageId][p.slotId]) == 0;
      }
    }
  }

  /** A consistent table is no legacy file, and its largest id is the one before the next. */
  lemma NeverLegacy(t: Kind, d: Data)
    requires Consistent(t, d)
    ensures LegacyTo(t, d.pages, |d.pages|) == false && MaxTo(t, d.pages, |d.pages|) + 1 == d.nextId
  {
    LegacyMeans(t, d.pages);
    forall p: RecordPtr | Has(d.pages, p) ensures KeyAt(t, d.pages, p) != 0 {
      assert SlotOk(t, d, p);
    }
    MaxIsLast(t, d);
  }

  /** The largest key on the next page, unless it is a legacy page. */
  method MaxVisit(pool: BufferPool, fd: int, t: Kind, i: nat, low: int, ghost pages: RowPages, ghost p: Pool) returns (legacy: bool, m: int)
    requires Stored(pool, fd, t, pages) == true && i < |pages| && PagesOk(t, pages) && low == MaxTo(t, pages, i)
    requires Ok(p) && OthersSame(p, fd, pool.State()) == true
    modifies pool.Repr()
    ensures Stored(pool, fd, t, pages) == true && OthersSame(p, fd, pool.State()) == true
    ensures pool.Repr() == old(pool.Repr())
    ensures legacy == LegacyPage(t, pages, i) && (!legacy ==> m == MaxTo(t, pages, i + 1))
  {
    ghost var q := pool.State();
    assert PageRows(t, pages, i);
    var buf;
    buf, legacy, m := VisitAndMax(pool, fd, t, i, low, pages);
    Leave(pool, fd, t, i, buf, pages, q);
    SameThenSame(p, fd, q, pool.State());
  }

  method VisitAndMax(pool: BufferPool, fd: int, t: Kind, i: nat, low: int, ghost pages: RowPages)
    returns (buf: array<Byte>, legacy: bool, m: int)
    requires Stored(pool, fd, t, pages) == true && i < |pages| && RowsOk(t, pages[i]) == true
    modifies pool.Repr()
    ensures Reading(pool, fd, t, pages, i, buf, old(pool.State())) == true && pool.Repr() == old(pool.Repr())
    ensures legacy == LegacyIn(t, pages[i], |pages[i]|) && (!legacy ==> m == MaxIn(t, pages[i], |pages[i]|, low))
  {
    ghost var q := pool.State();
    buf := Visit(pool, fd, t, i, pages);
    legacy, m := MaxInPage(buf, t, low, pages[i]);
    assert Reading(pool, fd, t, pages, i, buf, q) == true;
  }

  /** The walk of table_open over all pages. */
  method MaxFile(pool: BufferPool, fd: int, t: Kind, n: nat, ghost pages: RowPages) returns (legacy: bool, m: int)
    requires Stored(pool, fd, t, pages) == true && n == |pages| && PagesOk(t, pages)
    modifies pool.Repr()
    ensures Stored(pool, fd, t, pages) == true && OthersSame(old(pool.State()), fd, pool.State()) == true
    ensures pool.Repr() == old(pool.Repr())
    ensures legacy == LegacyTo(t, pages, n) && (!legacy ==> m == MaxTo(t, pages, n))
  {
    ghost var p := pool.State();
    SameAsItself(p, fd);
    legacy, m := false, 0;
    var pid := 0;
    while pid < n
      invariant pid <= n && pool.Repr() == old(pool.Repr())
      invariant Stored(pool, fd, t, pages) == true && OthersSame(p, fd, pool.State()) == true
      invariant LegacyTo(t, pages, pid) == false && m == MaxTo(t, pages, pid)
    {
      legacy, m := MaxVisit(pool, fd, t, pid, m, pages, p);
      if legacy {
        return;
      }
      pid := pid + 1;
    }
  }
}
