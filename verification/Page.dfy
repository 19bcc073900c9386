// Fixed-size records packed into a page behind a 16-byte header, as bytes: what the page operations read and write.
module Page {
  import opened Bytes
  import opened Common

  const HEADER_SIZE := 16

  // ---------------------------------------------------------------------------
  // The layout
  // ---------------------------------------------------------------------------

  /** record_count and record_size of the header. */
  function CountOf(p: seq<Byte>): int
    requires |p| >= HEADER_SIZE
  {
    Get16(p[4..])
  }

  function SizeOf(p: seq<Byte>): int
    requires |p| >= HEADER_SIZE
  {
    Get16(p[8..])
  }

  /** page_get_max_records */
  function MaxRecords(size: nat): nat {
    if size == 0 then 0 else (PAGE_SIZE - HEADER_SIZE) / size
  }

  /** _record_offset */
  function Offset(slot: nat, size: nat): nat {
    HEADER_SIZE + slot * size
  }

  /** A page of records of `size` bytes. */
  ghost predicate PageOk(p: seq<Byte>, size: nat) {
    && |p| == PAGE_SIZE && 0 < size <= 256 && SizeOf(p) == size
    && 0 <= CountOf(p) <= MaxRecords(size)
  }

  lemma SlotFits(slot: nat, size: nat)
    requires 0 < size && slot < MaxRecords(size)
    ensures Offset(slot, size) + size == Offset(slot + 1, size) <= PAGE_SIZE
  {
    var n := MaxRecords(size);
    assert (slot + 1) * size <= n * size <= PAGE_SIZE - HEADER_SIZE;
    assert (slot + 1) * size == slot * size + size;
  }

  lemma SlotsApart(i: nat, j: nat, size: nat)
    requires i < j
    ensures Offset(i, size) + size <= Offset(j, size)
  {
    assert i * size + size == (i + 1) * size <= j * size;
  }

  /** The record in a slot. */
  ghost function SlotAt(p: seq<Byte>, slot: nat, size: nat): (r: seq<Byte>)
    requires |p| == PAGE_SIZE && 0 < size && slot < MaxRecords(size)
    ensures |r| == size
  {
    SlotFits(slot, size);
    p[Offset(slot, size)..Offset(slot, size) + size]
  }

  /** All records of a page, deleted ones included, in slot order. */
  ghost function Records(p: seq<Byte>, size: nat): (r: seq<seq<Byte>>)
    requires PageOk(p, size)
    ensures |r| == CountOf(p)
    ensures forall i :: 0 <= i < |r| ==> r[i] == SlotAt(p, i, size)
  {
    seq(CountOf(p), i requires 0 <= i < CountOf(p) => SlotAt(p, i, size))
  }

  // ---------------------------------------------------------------------------
  // Writing into a buffer
  // ---------------------------------------------------------------------------

  /** `s` with `b` laid over it at `at`. */
  ghost function Patched(s: seq<Byte>, at: nat, b: seq<Byte>): (r: seq<Byte>)
    requires at + |b| <= |s|
    ensures |r| == |s|
    ensures forall i :: 0 <= i < |r| ==> r[i] == if at <= i < at + |b| then b[i - at] else s[i]
  {
    s[..at] + b + s[at + |b|..]
  }

  /** memcpy into the page buffer. */
  method CopyIn(buf: array<Byte>, at: nat, b: seq<Byte>)
    requires at + |b| <= buf.Length
    modifies buf
    ensures buf[..] == Patched(old(buf[..]), at, b)
  {
    var i := 0;
    while i < |b|
      invariant i <= |b|
      invariant forall j :: 0 <= j < buf.Length ==> buf[j] == if at <= j < at + i then b[j - at] else old(buf[j])
    {
      buf[at + i] := b[i];
      i := i + 1;
    }
  }

  lemma Patched16(s: seq<Byte>, at: nat, x: nat)
    requires at + 2 <= |s| && x < 0x1_0000
    ensures Get16(Patched(s, at, U16(x))[at..]) == x
  {
    var p := Patched(s, at, U16(x));
    assert p[at..][0] == U16(x)[0] && p[at..][1] == U16(x)[1];
  }

  lemma PatchedElsewhere(s: seq<Byte>, at: nat, b: seq<Byte>, lo: nat, hi: nat)
    requires at + |b| <= |s| && lo <= hi <= |s| && (hi <= at || at + |b| <= lo)
    ensures Patched(s, at, b)[lo..hi] == s[lo..hi]
  {
  }

  lemma PatchedThere(s: seq<Byte>, at: nat, b: seq<Byte>)
    requires at + |b| <= |s|
    ensures Patched(s, at, b)[at..at + |b|] == b
  {
  }

  /** A patch beyond the header leaves count and size alone. */
  lemma HeaderKept(p: seq<Byte>, at: nat, b: seq<Byte>)
    requires |p| == PAGE_SIZE && at + |b| <= |p| && (HEADER_SIZE <= at || (6 <= at && at + |b| <= 8) || (10 <= at && at + |b| <= 16))
    ensures CountOf(Patched(p, at, b)) == CountOf(p) && SizeOf(Patched(p, at, b)) == SizeOf(p)
  {
    var q := Patched(p, at, b);
    assert p[4..][0] == p[4] == q[4] && p[4..][1] == p[5] == q[5];
    assert p[8..][0] == p[8] == q[8] && p[8..][1] == p[9] == q[9];
  }

  // ---------------------------------------------------------------------------
  // Page operations
  // ---------------------------------------------------------------------------

  /** The page carries its number, free space begins behind the header, and no flag, reserved or record byte is set. */
  ghost predicate Fresh(p: seq<Byte>, pageId: nat) {
    && |p| == PAGE_SIZE && Get32(p) == pageId && CountOf(p) == 0 && Get16(p[6..]) == HEADER_SIZE
    && forall i :: 10 <= i < PAGE_SIZE ==> p[i] == 0
  }

  lemma FreshHeader(p: seq<Byte>, pageId: nat)
    requires |p| == PAGE_SIZE && pageId < 0x1_0000_0000
    requires p[0] == U32(pageId)[0] && p[1] == U32(pageId)[1] && p[2] == U32(pageId)[2] && p[3] == U32(pageId)[3]
    requires p[4] == 0 && p[5] == 0 && p[6] == U16(HEADER_SIZE)[0] && p[7] == U16(HEADER_SIZE)[1]
    requires forall i :: 10 <= i < PAGE_SIZE ==> p[i] == 0
    ensures Fresh(p, pageId) == true
  {
    Get32U32(pageId, p[4..]);
    assert p == U32(pageId) + p[4..];
    Get16U16(HEADER_SIZE, p[8..]);
    assert p[6..] == U16(HEADER_SIZE) + p[8..];
  }

  /** A page takes as many records as fit behind its header: all of those lie within the page, and one more would not. */
  lemma MostThatFit(size: nat)
    requires 0 < size
    ensures Offset(0, size) == HEADER_SIZE
    ensures Offset(MaxRecords(size), size) <= PAGE_SIZE < Offset(MaxRecords(size) + 1, size)
  {
    var n := MaxRecords(size);
    assert n * size <= PAGE_SIZE - HEADER_SIZE < (n + 1) * size;
  }

  /** page_init_header: an empty page. */
  method InitHeader(buf: array<Byte>, pageId: nat, size: nat)
    requires buf.Length == PAGE_SIZE && pageId < 0x1_0000_0000 && 0 < size <= 256
    modifies buf
    ensures PageOk(buf[..], size) && Records(buf[..], size) == []
    ensures Fresh(buf[..], pageId) == true
  {
    var i := 0;
    while i < PAGE_SIZE
      invariant i <= PAGE_SIZE && forall j :: 0 <= j < i ==> buf[j] == 0
    {
      buf[i] := 0;
      i := i + 1;
    }
    CopyIn(buf, 0, U32(pageId));
    CopyIn(buf, 6, U16(HEADER_SIZE));
    ghost var before := buf[..];
    assert before[4] == 0 && before[5] == 0;
    CopyIn(buf, 8, U16(size));
    Patched16(before, 8, size);
    assert buf[..][4..][0] == 0 && buf[..][4..][1] == 0;
    FreshHeader(buf[..], pageId);
  }

  /** page_is_full */
  predicate IsFull(count: int, size: nat) {
    count >= MaxRecords(size)
  }

  /** The header of `q` is that of `p`, but for record count, free space offset and dirty flag. */
  ghost predicate SameHeader(p: seq<Byte>, q: seq<Byte>) {
    && |p| == |q| == PAGE_SIZE
    && q[..4] == p[..4] && q[8..10] == p[8..10] && q[11..HEADER_SIZE] == p[11..HEADER_SIZE] && q[10] / 2 == p[10] / 2
  }

  /** flags |= PAGE_FLAG_DIRTY */
  method SetDirtyFlag(buf: array<Byte>, size: nat)
    requires buf.Length == PAGE_SIZE && PageOk(buf[..], size)
    modifies buf
    ensures PageOk(buf[..], size) && CountOf(buf[..]) == old(CountOf(buf[..]))
    ensures SameHeader(old(buf[..]), buf[..]) && buf[4..8] == old(buf[4..8]) && buf[10] % 2 == 1
    ensures forall i :: 0 <= i < MaxRecords(size) ==> SlotAt(buf[..], i, size) == SlotAt(old(buf[..]), i, size)
  {
    ghost var p := buf[..];
    if buf[10] % 2 == 0 {
      buf[10] := buf[10] + 1;
      assert buf[..] == Patched(p, 10, [p[10] + 1]);
      HeaderKept(p, 10, [p[10] + 1]);
      forall i | 0 <= i < MaxRecords(size) ensures SlotAt(buf[..], i, size) == SlotAt(p, i, size) {
        SlotHeaderPatched(p, 10, [p[10] + 1], size, i);
      }
    }
  }

  /** Page `q` has the records of `p` and one more. */
  ghost predicate Inserted(p: seq<Byte>, q: seq<Byte>, rec: seq<Byte>, size: nat) {
    PageOk(p, size) && PageOk(q, size) && |rec| == size && Records(q, size) == Records(p, size) + [rec]
  }

  ghost predicate Replaced(p: seq<Byte>, q: seq<Byte>, slot: nat, rec: seq<Byte>, size: nat) {
    && PageOk(p, size) && PageOk(q, size) && |rec| == size && slot < CountOf(p)
    && Records(q, size) == Records(p, size)[slot := rec]
  }

  lemma SlotPatched(p: seq<Byte>, slot: nat, rec: seq<Byte>, size: nat, i: nat)
    requires |p| == PAGE_SIZE && 0 < size && |rec| == size && slot < MaxRecords(size) && i < MaxRecords(size)
    ensures Offset(slot, size) + size <= PAGE_SIZE
    ensures SlotAt(Patched(p, Offset(slot, size), rec), i, size) == if i == slot then rec else SlotAt(p, i, size)
  {
    SlotFits(slot, size);
    SlotFits(i, size);
    if i < slot {
      SlotsApart(i, slot, size);
      PatchedElsewhere(p, Offset(slot, size), rec, Offset(i, size), Offset(i, size) + size);
    } else if i > slot {
      SlotsApart(slot, i, size);
      PatchedElsewhere(p, Offset(slot, size), rec, Offset(i, size), Offset(i, size) + size);
    } else {
      PatchedThere(p, Offset(slot, size), rec);
    }
  }

  lemma SlotHeaderPatched(p: seq<Byte>, at: nat, b: seq<Byte>, size: nat, i: nat)
    requires |p| == PAGE_SIZE && 0 < size && i < MaxRecords(size) && at + |b| <= HEADER_SIZE
    ensures SlotAt(Patched(p, at, b), i, size) == SlotAt(p, i, size)
  {
    SlotFits(i, size);
    PatchedElsewhere(p, at, b, Offset(i, size), Offset(i, size) + size);
  }

  /** Sets the header's record count and free space offset. */
  method SetCount(buf: array<Byte>, count: nat, size: nat)
    requires buf.Length == PAGE_SIZE && PageOk(buf[..], size) && count <= MaxRecords(size)
    modifies buf
    ensures PageOk(buf[..], size) && CountOf(buf[..]) == count
    ensures SameHeader(old(buf[..]), buf[..]) && Get16(buf[6..]) == Offset(count, size)
    ensures forall i :: 0 <= i < MaxRecords(size) ==> SlotAt(buf[..], i, size) == SlotAt(old(buf[..]), i, size)
  {
    ghost var p := buf[..];
    CountBound(size);
    CopyIn(buf, 4, U16(count));
    ghost var q := buf[..];
    Patched16(p, 4, count);
    assert p[8..][0] == p[8] == q[8] && p[8..][1] == p[9] == q[9];
    OffsetBound(count, size);
    CopyIn(buf, 6, U16(Offset(count, size)));
    Patched16(q, 6, Offset(count, size));
    HeaderKept(q, 6, U16(Offset(count, size)));
    forall i | 0 <= i < MaxRecords(size) ensures SlotAt(buf[..], i, size) == SlotAt(p, i, size) {
      SlotHeaderPatched(p, 4, U16(count), size, i);
      SlotHeaderPatched(q, 6, U16(Offset(count, size)), size, i);
    }
  }

  lemma CountBound(size: nat)
    requires size > 0
    ensures MaxRecords(size) < 0x1_0000
  {
    var n := MaxRecords(size);
    assert n <= n * size <= PAGE_SIZE;
  }

  lemma OffsetBound(count: nat, size: nat)
    requires size > 0 && count <= MaxRecords(size)
    ensures Offset(count, size) <= PAGE_SIZE
  {
    assert count * size <= MaxRecords(size) * size <= PAGE_SIZE - HEADER_SIZE;
  }

  lemma FreeOffsetKept(p: seq<Byte>, q: seq<Byte>)
    requires |p| == |q| == PAGE_SIZE && q[4..8] == p[4..8]
    ensures Get16(q[6..]) == Get16(p[6..])
  {
    assert q[6..][0] == q[4..8][2] == p[4..8][2] == p[6..][0];
    assert q[6..][1] == q[4..8][3] == p[4..8][3] == p[6..][1];
  }

  /** page_insert_record: the slot, or nothing when the page is full. */
  method InsertRecord(buf: array<Byte>, rec: seq<Byte>, size: nat) returns (slot: Option<nat>)
    requires buf.Length == PAGE_SIZE && PageOk(buf[..], size) && |rec| == size
    modifies buf
    ensures slot.None? <==> IsFull(old(CountOf(buf[..])), size)
    ensures slot.None? ==> buf[..] == old(buf[..])
    ensures slot.Some? ==> slot.value == old(CountOf(buf[..])) && Inserted(old(buf[..]), buf[..], rec, size)
    ensures slot.Some? ==>
              && SameHeader(old(buf[..]), buf[..]) && Get16(buf[6..]) == Offset(slot.value + 1, size) && buf[10] % 2 == 1
  {
    ghost var p := buf[..];
    var count := CountOf(buf[..]);
    if IsFull(count, size) {
      return None;
    }
    SlotFits(count, size);
    CopyIn(buf, Offset(count, size), rec);
    HeaderKept(p, Offset(count, size), rec);
    ghost var q := buf[..];
    SetCount(buf, count + 1, size);
    ghost var r := buf[..];
    assert SameHeader(p, q) && SameHeader(q, r);
    SetDirtyFlag(buf, size);
    FreeOffsetKept(r, buf[..]);
    forall i | 0 <= i <= count ensures SlotAt(buf[..], i, size) == if i == count then rec else SlotAt(p, i, size) {
      SlotPatched(p, count, rec, size, i);
    }
    return Some(count);
  }

  /** page_get_record, copied out. */
  method GetRecord(buf: array<Byte>, slot: nat, size: nat) returns (rec: Option<seq<Byte>>)
    requires buf.Length == PAGE_SIZE && PageOk(buf[..], size)
    ensures rec == if slot < CountOf(buf[..]) then Some(Records(buf[..], size)[slot]) else None
  {
    if slot >= CountOf(buf[..]) {
      return None;
    }
    SlotFits(slot, size);
    return Some(buf[Offset(slot, size)..Offset(slot, size) + size]);
  }

  /** page_update_record */
  method UpdateRecord(buf: array<Byte>, slot: nat, rec: seq<Byte>, size: nat) returns (ok: bool)
    requires buf.Length == PAGE_SIZE && PageOk(buf[..], size) && |rec| == size
    modifies buf
    ensures ok == (slot < old(CountOf(buf[..])))
    ensures if ok then Replaced(old(buf[..]), buf[..], slot, rec, size) else buf[..] == old(buf[..])
    ensures ok ==> SameHeader(old(buf[..]), buf[..]) && buf[4..8] == old(buf[4..8]) && buf[10] % 2 == 1
  {
    ghost var p := buf[..];
    if slot >= CountOf(buf[..]) {
      return false;
    }
    SlotFits(slot, size);
    CopyIn(buf, Offset(slot, size), rec);
    HeaderKept(p, Offset(slot, size), rec);
    ghost var q := buf[..];
    SetDirtyFlag(buf, size);
    forall i | 0 <= i < CountOf(p) ensures SlotAt(buf[..], i, size) == if i == slot then rec else SlotAt(p, i, size) {
      SlotPatched(p, slot, rec, size, i);
    }
    return true;
  }

  /** mark_record_deleted: one byte of the record is set, straight in the page buffer. */
  method MarkDeleted(buf: array<Byte>, slot: nat, at: nat, size: nat)
    requires buf.Length == PAGE_SIZE && PageOk(buf[..], size) && slot < CountOf(buf[..]) && at < size
    modifies buf
    ensures Replaced(old(buf[..]), buf[..], slot, Records(old(buf[..]), size)[slot][at := 1], size)
    ensures buf[..HEADER_SIZE] == old(buf[..HEADER_SIZE])
  {
    ghost var p := buf[..];
    ghost var rec := SlotAt(p, slot, size)[at := 1];
    SlotFits(slot, size);
    buf[Offset(slot, size) + at] := 1;
    assert buf[..] == Patched(p, Offset(slot, size), rec);
    HeaderKept(p, Offset(slot, size), rec);
    forall i | 0 <= i < CountOf(p) ensures SlotAt(buf[..], i, size) == if i == slot then rec else SlotAt(p, i, size) {
      SlotPatched(p, slot, rec, size, i);
    }
  }
}
