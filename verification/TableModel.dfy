// The table layer as values: pages of records, the index over them, and the log that describes them. The operations here
// are what the methods in Table.dfy do to their pages, index and log; the lemmas say why all three describe the same rows.
module TableModel {
  import opened BTreeModel
  import opened Bytes
  import opened Common
  import P = Page
  import W = Wal

  // ---------------------------------------------------------------------------
  // Records
  // ---------------------------------------------------------------------------

  datatype Kind = Users | Events | Seats | Bookings | BookingSeats

  function Code(t: Kind): (c: nat)
    ensures c < 5
  {
    match t
    case Users => 0
    case Events => 1
    case Seats => 2
    case Bookings => 3
    case BookingSeats => 4
  }

  function RecordSize(t: Kind): (n: nat)
    ensures 0 < n <= 256
  {
    match t
    case Users => 128
    case Events => 192
    case Seats => 32
    case Bookings => 64
    case BookingSeats => 16
  }

  /** Where the primary key lies: a junction row has its own id behind the deletion flag. */
  function KeyOffset(t: Kind): (n: nat)
    ensures n + 4 <= RecordSize(t)
  {
    if t == BookingSeats then 9 else 0
  }

  /** get_deleted_flag_offset */
  function DeletedOffset(t: Kind): (n: nat)
    ensures n < RecordSize(t) && !(KeyOffset(t) <= n < KeyOffset(t) + 4)
  {
    match t
    case Users => 110
    case Events => 162
    case Seats => 16
    case Bookings => 27
    case BookingSeats => 8
  }

  type Row = seq<Byte>

  /** The sizes of the fields of each packed record structure. */
  function FieldSizes(t: Kind): seq<nat> {
    match t
    // user_id, username, password_hash, role, created_at, is_deleted, padding
    case Users => [4, 32, 65, 1, 8, 1, 17]
    // event_id, name, venue, event_date, event_time, organizer_id, total_rows, seats_per_row, price, status, is_deleted, padding
    case Events => [4, 64, 64, 11, 6, 4, 2, 2, 4, 1, 1, 29]
    // seat_id, event_id, row_label, seat_number, status, booked_by, is_deleted, padding
    case Seats => [4, 4, 1, 2, 1, 4, 1, 15]
    // booking_id, user_id, event_id, seat_count, total_amount, status, booked_at, is_deleted, padding
    case Bookings => [4, 4, 4, 2, 4, 1, 8, 1, 36]
    // booking_id, seat_id, is_deleted, junction_id, padding
    case BookingSeats => [4, 4, 1, 4, 3]
  }

  /** Which of them is the primary key, and which the deletion flag. */
  function KeyField(t: Kind): (n: nat)
    ensures n < |FieldSizes(t)|
  {
    if t == BookingSeats then 3 else 0
  }

  function FlagField(t: Kind): (n: nat)
    ensures n < |FieldSizes(t)|
  {
    match t
    case Users => 5
    case Events => 10
    case Seats => 6
    case Bookings => 7
    case BookingSeats => 2
  }

  /** Where field `n` begins. */
  function OffsetOf(sizes: seq<nat>, n: nat): nat
    requires n <= |sizes|
  {
    if n == 0 then 0 else OffsetOf(sizes, n - 1) + sizes[n - 1]
  }

  /** The record sizes and the places of key and flag are those of the packed structures. */
  lemma LaidOut(t: Kind)
    ensures OffsetOf(FieldSizes(t), |FieldSizes(t)|) == RecordSize(t)
    ensures OffsetOf(FieldSizes(t), KeyField(t)) == KeyOffset(t) && FieldSizes(t)[KeyField(t)] == 4
    ensures OffsetOf(FieldSizes(t), FlagField(t)) == DeletedOffset(t) && FieldSizes(t)[FlagField(t)] == 1
  {
    match t
    case Users => assert OffsetOf(FieldSizes(Users), 3) == 101 && OffsetOf(FieldSizes(Users), 6) == 111;
    case Events => assert OffsetOf(FieldSizes(Events), 6) == 153 && OffsetOf(FieldSizes(Events), 11) == 163;
    case Seats => assert OffsetOf(FieldSizes(Seats), 4) == 11 && OffsetOf(FieldSizes(Seats), 7) == 17;
    case Bookings => assert OffsetOf(FieldSizes(Bookings), 4) == 14 && OffsetOf(FieldSizes(Bookings), 8) == 28;
    case BookingSeats => assert OffsetOf(FieldSizes(BookingSeats), 2) == 8 && OffsetOf(FieldSizes(BookingSeats), 4) == 13;
  }

  predicate RowOk(t: Kind, r: Row) {
    |r| == RecordSize(t)
  }

  function KeyOf(t: Kind, r: Row): int
    requires RowOk(t, r)
  {
    Get32(r[KeyOffset(t)..])
  }

  /** !is_record_deleted */
  predicate IsLive(t: Kind, r: Row)
    requires RowOk(t, r)
  {
    r[DeletedOffset(t)] == 0
  }

  function WithKey(t: Kind, r: Row, id: nat): (r': Row)
    requires RowOk(t, r) && id < KEY_LIMIT
    ensures RowOk(t, r')
  {
    r[..KeyOffset(t)] + U32(id) + r[KeyOffset(t) + 4..]
  }

  function Marked(t: Kind, r: Row): (r': Row)
    requires RowOk(t, r)
    ensures RowOk(t, r')
  {
    r[DeletedOffset(t) := 1]
  }

  /** The record `x` has `id` in its key field and agrees with `r` in every other byte. */
  predicate OnlyKeyed(t: Kind, r: Row, id: nat, x: Row)
    requires RowOk(t, r)
  {
    RowOk(t, x) && KeyOf(t, x) == id && forall i :: 0 <= i < |r| && !(KeyOffset(t) <= i < KeyOffset(t) + 4) ==> x[i] == r[i]
  }

  /** The key written is the key read; no byte outside the key field changes, the deletion flag among them. */
  lemma KeyWritten(t: Kind, r: Row, id: nat)
    requires RowOk(t, r) && id < KEY_LIMIT
    ensures OnlyKeyed(t, r, id, WithKey(t, r, id)) && KeyOf(t, WithKey(t, r, id)) == id
    ensures IsLive(t, WithKey(t, r, id)) == IsLive(t, r)
  {
    var k := KeyOffset(t);
    assert WithKey(t, r, id)[k..] == U32(id) + r[k + 4..];
    Get32U32(id, r[k + 4..]);
  }

  /** Setting the deletion flag writes that byte and no other, so it leaves the key alone. */
  lemma MarkKeepsKey(t: Kind, r: Row)
    requires RowOk(t, r)
    ensures KeyOf(t, Marked(t, r)) == KeyOf(t, r) && !IsLive(t, Marked(t, r))
    ensures forall i :: 0 <= i < |r| && i != DeletedOffset(t) ==> Marked(t, r)[i] == r[i]
  {
    var k, m := KeyOffset(t), Marked(t, r);
    assert forall i :: 0 <= i < 4 ==> m[k..][i] == m[k + i] == r[k + i] == r[k..][i];
  }

  // ---------------------------------------------------------------------------
  // Pages and slots
  // ---------------------------------------------------------------------------

  type RowPages = seq<seq<Row>>

  predicate Has(pages: RowPages, p: RecordPtr) {
    0 <= p.pageId < |pages| && 0 <= p.slotId < |pages[p.pageId]|
  }

  function RowIn(pages: RowPages, p: RecordPtr): Row
    requires Has(pages, p)
  {
    pages[p.pageId][p.slotId]
  }

  function PutRow(pages: RowPages, p: RecordPtr, r: Row): RowPages
    requires Has(pages, p)
  {
    pages[p.pageId := pages[p.pageId][p.slotId := r]]
  }

  lemma PutAt(pages: RowPages, p: RecordPtr, r: Row, q: RecordPtr)
    requires Has(pages, p)
    ensures Has(PutRow(pages, p, r), q) <==> Has(pages, q)
    ensures Has(pages, q) ==> RowIn(PutRow(pages, p, r), q) == if q == p then r else RowIn(pages, q)
  {
  }

  /** The last page has a slot left. */
  predicate Roomy(t: Kind, pages: RowPages) {
    |pages| > 0 && |pages[|pages| - 1]| < P.MaxRecords(RecordSize(t))
  }

  /** A row goes to the last page, or to a new one when that is full. */
  function AppendRow(t: Kind, pages: RowPages, r: Row): RowPages {
    var n := |pages|;
    if Roomy(t, pages) then pages[n - 1 := pages[n - 1] + [r]] else pages + [[r]]
  }

  function NextPtr(t: Kind, pages: RowPages): RecordPtr {
    var n := |pages|;
    if Roomy(t, pages) then RecordPtr(n - 1, |pages[n - 1]|) else RecordPtr(n, 0)
  }

  lemma AppendAt(t: Kind, pages: RowPages, r: Row, q: RecordPtr)
    ensures var pages', p := AppendRow(t, pages, r), NextPtr(t, pages);
            && (Has(pages', q) <==> Has(pages, q) || q == p) && !Has(pages, p)
            && Has(pages', p) && RowIn(pages', p) == r && (Has(pages, q) ==> RowIn(pages', q) == RowIn(pages, q))
  {
  }

  /** Page `i` holds rows of this kind; every page is in use and all but the last are full. */
  ghost predicate PageRows(t: Kind, pages: RowPages, i: nat)
    requires i < |pages|
  {
    && 0 < |pages[i]| <= P.MaxRecords(RecordSize(t)) && (i + 1 < |pages| ==> |pages[i]| == P.MaxRecords(RecordSize(t)))
    && forall j :: 0 <= j < |pages[i]| ==> RowOk(t, pages[i][j])
  }

  ghost predicate PagesOk(t: Kind, pages: RowPages) {
    forall i :: 0 <= i < |pages| ==> PageRows(t, pages, i)
  }

  lemma RowAt(t: Kind, pages: RowPages, p: RecordPtr)
    requires PagesOk(t, pages) && Has(pages, p)
    ensures RowOk(t, RowIn(pages, p))
  {
    assert PageRows(t, pages, p.pageId);
  }

  lemma PutPagesOk(t: Kind, pages: RowPages, p: RecordPtr, r: Row)
    requires PagesOk(t, pages) && Has(pages, p) && RowOk(t, r)
    ensures PagesOk(t, PutRow(pages, p, r))
  {
    forall i | 0 <= i < |pages| ensures PageRows(t, PutRow(pages, p, r), i) {
      assert PageRows(t, pages, i);
    }
  }

  lemma AppendPagesOk(t: Kind, pages: RowPages, r: Row)
    requires PagesOk(t, pages) && RowOk(t, r)
    ensures PagesOk(t, AppendRow(t, pages, r))
  {
    var pages' := AppendRow(t, pages, r);
    assert 0 < P.MaxRecords(RecordSize(t));
    forall i | 0 <= i < |pages'| ensures PageRows(t, pages', i) {
      if i < |pages| {
        assert PageRows(t, pages, i);
      }
    }
  }

  // ---------------------------------------------------------------------------
  // A table
  // ---------------------------------------------------------------------------

  /** What a table holds: its pages, the index and the id to give out next. */
  datatype Data = Data(pages: RowPages, index: map<Key, RecordPtr>, nextId: nat)

  const EmptyData := Data([], map[], 1)

  /** Every index entry names a slot that exists. */
  ghost predicate PtrsOk(d: Data) {
    forall k :: k in d.index ==> 0 <= k < d.nextId && Has(d.pages, d.index[k])
  }

  ghost predicate Sound(t: Kind, d: Data) {
    PagesOk(t, d.pages) && PtrsOk(d) && 1 <= d.nextId <= KEY_LIMIT
  }

  /** Index entries lead to live rows that carry their key. */
  ghost predicate IndexTrue(t: Kind, d: Data)
    requires Sound(t, d)
  {
    forall k :: k in d.index ==> EntryTrue(t, d, k)
  }

  ghost predicate EntryTrue(t: Kind, d: Data, k: Key)
    requires Sound(t, d) && k in d.index
  {
    RowAt(t, d.pages, d.index[k]);
    IsLive(t, RowIn(d.pages, d.index[k])) && KeyOf(t, RowIn(d.pages, d.index[k])) == k
  }

  /** The row in a slot has an id already given out and, if it is live, the index leads to it. */
  ghost predicate SlotOk(t: Kind, d: Data, p: RecordPtr)
    requires Sound(t, d) && Has(d.pages, p)
  {
    RowAt(t, d.pages, p);
    var r := RowIn(d.pages, p);
    && 1 <= KeyOf(t, r) < d.nextId
    && (IsLive(t, r) ==> KeyOf(t, r) in d.index && d.index[KeyOf(t, r)] == p)
  }

  ghost predicate SlotsOk(t: Kind, d: Data)
    requires Sound(t, d)
  {
    forall p: RecordPtr :: Has(d.pages, p) ==> SlotOk(t, d, p)
  }

  /** Some slot still carries the id given out last. */
  ghost predicate Newest(t: Kind, d: Data)
    requires Sound(t, d)
  {
    d.nextId == 1 || exists p: RecordPtr :: Has(d.pages, p) && Carries(t, d, p, d.nextId - 1)
  }

  ghost predicate Carries(t: Kind, d: Data, p: RecordPtr, id: int)
    requires Sound(t, d) && Has(d.pages, p)
  {
    RowAt(t, d.pages, p);
    KeyOf(t, RowIn(d.pages, p)) == id
  }

  /** Index and pages describe the same rows. */
  ghost predicate Consistent(t: Kind, d: Data) {
    Sound(t, d) && IndexTrue(t, d) && SlotsOk(t, d) && Newest(t, d)
  }

  lemma EmptyConsistent(t: Kind)
    ensures Consistent(t, EmptyData) && Rows(t, EmptyData) == map[]
  {
  }

  ghost predicate LiveAt(t: Kind, d: Data, k: Key)
    requires Sound(t, d)
  {
    k in d.index && (RowAt(t, d.pages, d.index[k]); IsLive(t, RowIn(d.pages, d.index[k])))
  }

  /** The rows a client can find. */
  ghost function Rows(t: Kind, d: Data): map<Key, Row>
    requires Sound(t, d)
  {
    map k | k in d.index && LiveAt(t, d, k) :: RowIn(d.pages, d.index[k])
  }

  // ---------------------------------------------------------------------------
  // Finding
  // ---------------------------------------------------------------------------

  ghost function Find(t: Kind, d: Data, id: Key): Option<Row>
    requires Sound(t, d)
  {
    if id in Rows(t, d) then Some(Rows(t, d)[id]) else None
  }

  /** Following the index to a slot and looking at its flag is finding. */
  lemma FindByIndex(t: Kind, d: Data, id: Key)
    requires Sound(t, d)
    ensures id !in d.index ==> Find(t, d, id) == None
    ensures id in d.index ==>
              && Has(d.pages, d.index[id]) && RowOk(t, RowIn(d.pages, d.index[id]))
              && Find(t, d, id) == if IsLive(t, RowIn(d.pages, d.index[id])) then Some(RowIn(d.pages, d.index[id])) else None
  {
    if id in d.index {
      RowAt(t, d.pages, d.index[id]);
    }
  }

  /** A live slot that carries `id`. */
  ghost predicate Bears(t: Kind, d: Data, p: RecordPtr, id: Key)
    requires Sound(t, d)
  {
    Has(d.pages, p) && Carries(t, d, p, id) && (RowAt(t, d.pages, p); IsLive(t, RowIn(d.pages, p)))
  }

  /** Looking up an id succeeds exactly when one live slot on all pages carries it, and returns that slot's record. */
  lemma FindMeansOneSlot(t: Kind, d: Data, id: Key)
    requires Consistent(t, d)
    ensures Find(t, d, id).Some? <==> exists p :: Bears(t, d, p, id)
    ensures forall p, q :: Bears(t, d, p, id) && Bears(t, d, q, id) ==> p == q
    ensures forall p :: Bears(t, d, p, id) ==> Find(t, d, id) == Some(RowIn(d.pages, p))
  {
    forall p | Bears(t, d, p, id) ensures id in d.index && d.index[id] == p {
      assert SlotOk(t, d, p);
    }
    if id in Rows(t, d) {
      assert EntryTrue(t, d, id);
      assert Bears(t, d, d.index[id], id);
    }
  }

  // ---------------------------------------------------------------------------
  // Inserting
  // ---------------------------------------------------------------------------

  /** table_insert: the row gets the next id, a slot and an index entry. */
  function InsertRow(t: Kind, d: Data, r: Row): Data
    requires RowOk(t, r) && d.nextId < KEY_LIMIT
  {
    Data(AppendRow(t, d.pages, WithKey(t, r, d.nextId)), d.index[d.nextId := NextPtr(t, d.pages)], d.nextId + 1)
  }

  lemma InsertSoundData(t: Kind, d: Data, r: Row)
    requires Sound(t, d) && RowOk(t, r) && d.nextId < KEY_LIMIT
    ensures Sound(t, InsertRow(t, d, r)) && d.nextId !in d.index
  {
    var d' := InsertRow(t, d, r);
    AppendPagesOk(t, d.pages, WithKey(t, r, d.nextId));
    forall k | k in d'.index ensures 0 <= k < d'.nextId && Has(d'.pages, d'.index[k]) {
      AppendAt(t, d.pages, WithKey(t, r, d.nextId), d'.index[k]);
    }
  }

  /** Inserting adds one row under a new id. It is found afterwards, and index and pages agree, exactly when the caller
      hands in a record that is not flagged deleted. */
  lemma InsertKeeps(t: Kind, d: Data, r: Row)
    requires Consistent(t, d) && RowOk(t, r) && d.nextId < KEY_LIMIT
    ensures var d' := InsertRow(t, d, r);
            && Sound(t, d') && d.nextId !in Rows(t, d)
            && (Consistent(t, d') <==> IsLive(t, r))
            && (IsLive(t, r) ==> Rows(t, d') == Rows(t, d)[d.nextId := WithKey(t, r, d.nextId)])
            && (!IsLive(t, r) ==> Rows(t, d') == Rows(t, d))
  {
    var d', id, p := InsertRow(t, d, r), d.nextId, NextPtr(t, d.pages);
    InsertSoundData(t, d, r);
    KeyWritten(t, r, id);
    InsertedRows(t, d, r);
    assert EntryTrue(t, d', id) <==> IsLive(t, r);
    if IsLive(t, r) {
      forall k | k in d'.index ensures EntryTrue(t, d', k) {
        AppendAt(t, d.pages, WithKey(t, r, id), d'.index[k]);
        if k != id {
          assert EntryTrue(t, d, k);
        }
      }
      forall q: RecordPtr | Has(d'.pages, q) ensures SlotOk(t, d', q) {
        AppendAt(t, d.pages, WithKey(t, r, id), q);
        if q != p {
          assert SlotOk(t, d, q);
        }
      }
      AppendAt(t, d.pages, WithKey(t, r, id), p);
      assert Carries(t, d', p, id);
    }
  }

  lemma InsertedRows(t: Kind, d: Data, r: Row)
    requires Sound(t, d) && RowOk(t, r) && d.nextId < KEY_LIMIT
    ensures var d' := InsertRow(t, d, r);
            && Sound(t, d') && d.nextId !in d.index
            && Rows(t, d') == if IsLive(t, r) then Rows(t, d)[d.nextId := WithKey(t, r, d.nextId)] else Rows(t, d)
  {
    var d', id := InsertRow(t, d, r), d.nextId;
    InsertSoundData(t, d, r);
    KeyWritten(t, r, id);
    AppendAt(t, d.pages, WithKey(t, r, id), NextPtr(t, d.pages));
    forall k | k in d.index ensures Has(d'.pages, d'.index[k]) && RowIn(d'.pages, d'.index[k]) == RowIn(d.pages, d.index[k]) {
      AppendAt(t, d.pages, WithKey(t, r, id), d.index[k]);
    }
  }

  /** After an insert of a live row the table finds under the new id the caller's record, byte for byte outside the key
      field; a record flagged deleted is not found; every other id is found as before. */
  lemma InsertedFound(t: Kind, d: Data, r: Row, id: Key)
    requires Sound(t, d) && RowOk(t, r) && d.nextId < KEY_LIMIT
    ensures var d' := InsertRow(t, d, r);
            && Sound(t, d') && Find(t, d, d.nextId) == None
            && (id != d.nextId ==> Find(t, d', id) == Find(t, d, id))
            && (id == d.nextId ==> if IsLive(t, r) then Find(t, d', id).Some? && OnlyKeyed(t, r, id, Find(t, d', id).value)
                                   else Find(t, d', id) == None)
  {
    InsertedRows(t, d, r);
    KeyWritten(t, r, d.nextId);
  }

  // ---------------------------------------------------------------------------
  // Updating
  // ---------------------------------------------------------------------------

  /** table_update of a row that is there. */
  ghost function UpdateRow(t: Kind, d: Data, id: Key, r: Row): Data
    requires Sound(t, d)
  {
    if id in Rows(t, d) then d.(pages := PutRow(d.pages, d.index[id], r)) else d
  }

  lemma PutSound(t: Kind, d: Data, p: RecordPtr, r: Row)
    requires Sound(t, d) && Has(d.pages, p) && RowOk(t, r)
    ensures Sound(t, d.(pages := PutRow(d.pages, p, r)))
  {
    var d' := d.(pages := PutRow(d.pages, p, r));
    PutPagesOk(t, d.pages, p, r);
    forall k | k in d'.index ensures Has(d'.pages, d'.index[k]) {
      PutAt(d.pages, p, r, d.index[k]);
    }
  }

  /** The caller's new image keeps the row's id and is not flagged deleted. */
  predicate KeepsIdentity(t: Kind, id: Key, r: Row)
    requires RowOk(t, r)
  {
    KeyOf(t, r) == id && IsLive(t, r)
  }

  /** An update of a row that is there leaves index and pages in agreement exactly when the new image keeps the id and is
      not flagged deleted: the code does not look. */
  lemma UpdateKeeps(t: Kind, d: Data, id: Key, r: Row)
    requires Consistent(t, d) && RowOk(t, r)
    ensures var d' := UpdateRow(t, d, id, r);
            && Sound(t, d') && (id !in Rows(t, d) ==> d' == d)
            && (id in Rows(t, d) ==> (Consistent(t, d') <==> KeepsIdentity(t, id, r)))
            && (id in Rows(t, d) && KeepsIdentity(t, id, r) ==> Rows(t, d') == Rows(t, d)[id := r])
  {
    if id in Rows(t, d) {
      var d', p := UpdateRow(t, d, id, r), d.index[id];
      PutSound(t, d, p, r);
      PutAt(d.pages, p, r, p);
      assert EntryTrue(t, d', id) <==> KeepsIdentity(t, id, r);
      if KeepsIdentity(t, id, r) {
        UpdateConsistent(t, d, id, r);
      }
    }
  }

  /** One row inserted into an empty table, then updated with an image that carries another id: the lookup of id 1 returns a
      record that says it is number 2, and the id the record carries is not found. */
  lemma ForeignImage(t: Kind) returns (d: Data, r: Row)
    ensures RowOk(t, r) && d == InsertRow(t, EmptyData, r) && Consistent(t, d)
    ensures var image := WithKey(t, r, 2); var d' := UpdateRow(t, d, 1, image);
            Sound(t, d') && Find(t, d', 1) == Some(image) && KeyOf(t, image) == 2 && Find(t, d', 2) == None && !Consistent(t, d')
  {
    r := seq(RecordSize(t), _ => 0);
    d := InsertRow(t, EmptyData, r);
    EmptyConsistent(t);
    InsertKeeps(t, EmptyData, r);
    var image := WithKey(t, r, 2);
    KeyWritten(t, r, 2);
    UpdateKeeps(t, d, 1, image);
    var d', p := UpdateRow(t, d, 1, image), d.index[1];
    PutAt(d.pages, p, image, p);
    FindByIndex(t, d', 1);
    FindByIndex(t, d', 2);
  }

  /** Two keys never share a slot. */
  lemma OwnSlot(t: Kind, d: Data, k: Key, id: Key)
    requires Consistent(t, d) && k in d.index && id in d.index && k != id
    ensures d.index[k] != d.index[id]
  {
    assert EntryTrue(t, d, k) && EntryTrue(t, d, id);
  }

  lemma UpdatedEntry(t: Kind, d: Data, id: Key, r: Row, d': Data, k: Key)
    requires Consistent(t, d) && RowOk(t, r) && id in d.index && KeepsIdentity(t, id, r) && k in d.index
    requires d' == d.(pages := PutRow(d.pages, d.index[id], r)) && Sound(t, d')
    ensures EntryTrue(t, d', k) == true && RowIn(d'.pages, d'.index[k]) == if k == id then r else RowIn(d.pages, d.index[k])
  {
    PutAt(d.pages, d.index[id], r, d.index[k]);
    assert EntryTrue(t, d, k);
    if k != id {
      OwnSlot(t, d, k, id);
    }
  }

  lemma UpdateConsistent(t: Kind, d: Data, id: Key, r: Row)
    requires Consistent(t, d) && RowOk(t, r) && id in Rows(t, d) && KeepsIdentity(t, id, r)
    ensures Consistent(t, UpdateRow(t, d, id, r)) && Rows(t, UpdateRow(t, d, id, r)) == Rows(t, d)[id := r]
  {
    var d', p := UpdateRow(t, d, id, r), d.index[id];
    PutSound(t, d, p, r);
    forall k | k in d'.index ensures EntryTrue(t, d', k) == true && RowIn(d'.pages, d'.index[k]) == if k == id then r else RowIn(d.pages, d.index[k]) {
      UpdatedEntry(t, d, id, r, d', k);
    }
    AllIndexed(t, d);
    AllIndexed(t, d');
    PutSlots(t, d, p, r, d');
  }

  /** When the index is true, it lists exactly the rows to be found. */
  lemma AllIndexed(t: Kind, d: Data)
    requires Sound(t, d) && IndexTrue(t, d) == true
    ensures forall k :: k in Rows(t, d) <==> k in d.index
  {
    forall k | k in d.index ensures LiveAt(t, d, k) {
      assert EntryTrue(t, d, k);
    }
  }

  /** A row with the same key takes a slot: the other slots are as they were. */
  lemma PutSlots(t: Kind, d: Data, p: RecordPtr, r: Row, d': Data)
    requires Consistent(t, d) && Has(d.pages, p) && RowOk(t, r) && Sound(t, d') && d'.nextId == d.nextId
    requires d'.pages == PutRow(d.pages, p, r) && Carries(t, d, p, KeyOf(t, r))
    requires IsLive(t, r) ==> KeyOf(t, r) in d'.index && d'.index[KeyOf(t, r)] == p
    requires forall k :: k in d.index && d.index[k] != p ==> k in d'.index && d'.index[k] == d.index[k]
    ensures SlotsOk(t, d') && Newest(t, d')
  {
    forall q: RecordPtr | Has(d'.pages, q) ensures SlotOk(t, d', q) {
      PutAt(d.pages, p, r, q);
      assert SlotOk(t, d, q);
    }
    if d.nextId != 1 {
      var q :| Has(d.pages, q) && Carries(t, d, q, d.nextId - 1);
      PutAt(d.pages, p, r, q);
      assert Carries(t, d', q, d.nextId - 1);
    }
  }

  // ---------------------------------------------------------------------------
  // Deleting
  // ---------------------------------------------------------------------------

  /** table_delete of a row that is there: flagged in its page and gone from the index. */
  ghost function DeleteRow(t: Kind, d: Data, id: Key): Data
    requires Sound(t, d)
  {
    if id in Rows(t, d) then
      RowAt(t, d.pages, d.index[id]);
      Data(PutRow(d.pages, d.index[id], Marked(t, RowIn(d.pages, d.index[id]))), d.index - {id}, d.nextId)
    else d
  }

  lemma DeleteSoundData(t: Kind, d: Data, id: Key)
    requires Sound(t, d)
    ensures Sound(t, DeleteRow(t, d, id))
  {
    if id in Rows(t, d) {
      RowAt(t, d.pages, d.index[id]);
      PutSound(t, d, d.index[id], Marked(t, RowIn(d.pages, d.index[id])));
    }
  }

  /** A delete removes its row and no other, and keeps index and pages in agreement. */
  lemma DeleteKeeps(t: Kind, d: Data, id: Key)
    requires Consistent(t, d)
    ensures Consistent(t, DeleteRow(t, d, id)) && Rows(t, DeleteRow(t, d, id)) == Rows(t, d) - {id}
  {
    if id in Rows(t, d) {
      var d', p := DeleteRow(t, d, id), d.index[id];
      RowAt(t, d.pages, p);
      var r := Marked(t, RowIn(d.pages, p));
      DeleteSoundData(t, d, id);
      MarkKeepsKey(t, RowIn(d.pages, p));
      assert EntryTrue(t, d, id);
      forall k | k in d'.index ensures EntryTrue(t, d', k) && RowIn(d'.pages, d'.index[k]) == RowIn(d.pages, d.index[k]) {
        PutAt(d.pages, p, r, d.index[k]);
        assert EntryTrue(t, d, k);
        OwnSlot(t, d, k, id);
      }
      PutSlots(t, d, p, r, d');
      AllIndexed(t, d);
      AllIndexed(t, d');
    }
  }
}
