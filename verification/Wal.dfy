// The write-ahead log, byte by byte: what is appended, what recovery makes of a log cut off anywhere, and how sequence
// numbers continue when the log is opened again.
module Wal {
  import opened Bytes
  import opened Common

  const HEADER := 20
  const INVALID_LSN := 0

  datatype Op = Insert | Update | Delete | Commit | Abort | Checkpoint

  function OpCode(op: Op): (c: nat)
    ensures 1 <= c <= 6
  {
    match op
    case Insert => 1
    case Update => 2
    case Delete => 3
    case Commit => 4
    case Abort => 5
    case Checkpoint => 6
  }

  function OpOf(code: int): Option<Op> {
    if code == 1 then Some(Insert) else if code == 2 then Some(Update) else if code == 3 then Some(Delete)
    else if code == 4 then Some(Commit) else if code == 5 then Some(Abort) else if code == 6 then Some(Checkpoint)
    else None
  }

  /** A log record with its before and after images. */
  datatype Record = Record(lsn: nat, txn: nat, op: Op, table: nat, id: nat, old_: seq<Byte>, new_: seq<Byte>)

  /** Every field of the record fits its place in the packed header. */
  ghost predicate Fits(r: Record) {
    && 0 < r.lsn < 0x1_0000_0000_0000_0000 && r.txn < 0x1_0000_0000 && r.table < 256 && r.id < 0x1_0000_0000
    && |r.old_| == |r.new_| < 0x1_0000
  }

  function HeaderBytes(r: Record): (h: seq<Byte>)
    requires r.lsn < 0x1_0000_0000_0000_0000 && r.txn < 0x1_0000_0000 && r.table < 256 && r.id < 0x1_0000_0000
    requires |r.new_| < 0x1_0000
    ensures |h| == HEADER
  {
    U64(r.lsn) + (U32(r.txn) + ([OpCode(r.op), r.table] + (U16(|r.new_|) + U32(r.id))))
  }

  ghost function RecordBytes(r: Record): (b: seq<Byte>)
    requires Fits(r)
    ensures |b| == HEADER + 2 * |r.new_|
  {
    HeaderBytes(r) + (r.old_ + r.new_)
  }

  ghost predicate AllFit(log: seq<Record>) {
    forall i :: 0 <= i < |log| ==> Fits(log[i])
  }

  ghost function LogBytes(log: seq<Record>): seq<Byte>
    requires AllFit(log)
  {
    if log == [] then [] else LogBytes(log[..|log| - 1]) + RecordBytes(log[|log| - 1])
  }

  /** Sequence numbers run 1, 2, 3, ... without a gap. */
  ghost predicate Numbered(log: seq<Record>) {
    forall i :: 0 <= i < |log| ==> log[i].lsn == i + 1
  }

  // ---------------------------------------------------------------------------
  // Reading a header back
  // ---------------------------------------------------------------------------

  datatype Header = Header(lsn: int, txn: int, op: Option<Op>, table: int, size: int, id: int)

  function ReadHeader(b: seq<Byte>): Header
    requires |b| >= HEADER
  {
    Header(Get64(b), Get32(b[8..]), OpOf(b[12]), b[13], Get16(b[14..]), Get32(b[16..]))
  }

  ghost function HeaderOf(r: Record): Header {
    Header(r.lsn, r.txn, Some(r.op), r.table, |r.new_|, r.id)
  }

  lemma HeaderParts(r: Record, rest: seq<Byte>)
    requires Fits(r)
    ensures var b := HeaderBytes(r) + rest;
            && b == U64(r.lsn) + (U32(r.txn) + ([OpCode(r.op), r.table] + (U16(|r.new_|) + U32(r.id))) + rest)
            && b[8..] == U32(r.txn) + ([OpCode(r.op), r.table] + (U16(|r.new_|) + U32(r.id)) + rest)
            && b[12] == OpCode(r.op) && b[13] == r.table
            && b[14..] == U16(|r.new_|) + (U32(r.id) + rest)
            && b[16..] == U32(r.id) + rest
  {
  }

  /** What was written as a header reads back as the same fields. */
  lemma HeaderRoundTrip(r: Record, rest: seq<Byte>)
    requires Fits(r)
    ensures ReadHeader(HeaderBytes(r) + rest) == HeaderOf(r)
  {
    HeaderParts(r, rest);
    Get64U64(r.lsn, U32(r.txn) + ([OpCode(r.op), r.table] + (U16(|r.new_|) + U32(r.id))) + rest);
    Get32U32(r.txn, [OpCode(r.op), r.table] + (U16(|r.new_|) + U32(r.id)) + rest);
    Get16U16(|r.new_|, U32(r.id) + rest);
    Get32U32(r.id, rest);
  }

  // ---------------------------------------------------------------------------
  // Where records lie
  // ---------------------------------------------------------------------------

  /** The offset at which record `i` starts. */
  ghost function Start(log: seq<Record>, i: nat): nat
    requires i <= |log|
  {
    if i == 0 then 0 else Start(log, i - 1) + HEADER + 2 * |log[i - 1].new_|
  }

  lemma {:induction false} StartIs(log: seq<Record>, i: nat)
    requires AllFit(log) && i <= |log|
    ensures |LogBytes(log[..i])| == Start(log, i)
    decreases i
  {
    if i > 0 {
      StartIs(log, i - 1);
      assert log[..i][..i - 1] == log[..i - 1];
    }
  }

  lemma WholeStart(log: seq<Record>)
    requires AllFit(log)
    ensures Start(log, |log|) == |LogBytes(log)|
  {
    StartIs(log, |log|);
    assert log[..|log|] == log;
  }

  lemma {:induction false} StartGrows(log: seq<Record>, i: nat, j: nat)
    requires i <= j <= |log|
    ensures Start(log, i) <= Start(log, j) && (i < j ==> Start(log, i) < Start(log, j))
    decreases j
  {
    if i < j {
      StartGrows(log, i, j - 1);
    }
  }

  /** Record `i` is found at its offset. */
  lemma {:induction false} RecordAt(log: seq<Record>, i: nat)
    requires AllFit(log) && i < |log|
    ensures Start(log, i) <= Start(log, i + 1) <= |LogBytes(log)|
    ensures LogBytes(log)[Start(log, i)..Start(log, i + 1)] == RecordBytes(log[i])
    decreases |log|
  {
    var n := |log| - 1;
    var front := log[..n];
    FrontBytes(log);
    SameStart(log, front, i);
    SameStart(log, front, n);
    if i < n {
      RecordAt(front, i);
      SameStart(log, front, i + 1);
      FrontSlice(LogBytes(front), RecordBytes(log[n]), Start(log, i), Start(log, i + 1));
    } else {
      BackSlice(LogBytes(front), RecordBytes(log[n]));
    }
  }

  lemma FrontBytes(log: seq<Record>)
    requires AllFit(log) && log != []
    ensures var n := |log| - 1;
            && LogBytes(log) == LogBytes(log[..n]) + RecordBytes(log[n])
            && |LogBytes(log[..n])| == Start(log[..n], n) && |LogBytes(log)| == Start(log, n + 1)
  {
    WholeStart(log);
    WholeStart(log[..|log| - 1]);
  }

  lemma FrontSlice<T>(a: seq<T>, b: seq<T>, p: nat, q: nat)
    requires p <= q <= |a|
    ensures (a + b)[p..q] == a[p..q]
  {
  }

  lemma BackSlice<T>(a: seq<T>, b: seq<T>)
    ensures (a + b)[|a|..|a| + |b|] == b
  {
  }

  lemma {:induction false} SameStart(log: seq<Record>, front: seq<Record>, i: nat)
    requires front <= log && i <= |front|
    ensures Start(log, i) == Start(front, i)
    decreases i
  {
    if i > 0 {
      SameStart(log, front, i - 1);
    }
  }

  /** How many records lie wholly within the first `n` bytes. */
  ghost function Complete(log: seq<Record>, n: nat): (c: nat)
    ensures c <= |log| && Start(log, c) <= n && (c < |log| ==> n < Start(log, c + 1))
  {
    CompleteFrom(log, n, 0)
  }

  ghost function CompleteFrom(log: seq<Record>, n: nat, i: nat): (c: nat)
    requires i <= |log| && Start(log, i) <= n
    ensures i <= c <= |log| && Start(log, c) <= n && (c < |log| ==> n < Start(log, c + 1))
    decreases |log| - i
  {
    if i < |log| && Start(log, i + 1) <= n then CompleteFrom(log, n, i + 1) else i
  }

  /** A count that fits the cut is the count. */
  lemma CompleteIs(log: seq<Record>, n: nat, c: nat)
    requires c <= |log|
    requires Start(log, c) <= n && (c < |log| ==> n < Start(log, c + 1))
    ensures Complete(log, n) == c
  {
    var d := Complete(log, n);
    if d < c {
      StartGrows(log, d + 1, c);
    } else if c < d {
      StartGrows(log, c + 1, d);
    }
  }

  // ---------------------------------------------------------------------------
  // The log file
  // ---------------------------------------------------------------------------

  function Image(data: Option<seq<Byte>>, size: nat): (r: seq<Byte>)
    requires data.Some? ==> |data.value| == size
    ensures |r| == size
  {
    if data.Some? then data.value else seq(size, _ => 0)
  }

  class WalFile {
    var bytes: seq<Byte>

    constructor ()
      ensures bytes == []
    {
      bytes := [];
    }
  }

  class Wal {
    const file: WalFile
    var nextLsn: nat
    var flushedLsn: nat

    /** The records appended since the log was created. */
    ghost var log: seq<Record>

    ghost predicate Valid()
      reads this, file
    {
      && AllFit(log) && Numbered(log) && file.bytes == LogBytes(log)
      && nextLsn == |log| + 1 && flushedLsn < nextLsn
    }

    /** wal_create */
    constructor (file: WalFile)
      requires file.bytes == []
      ensures Valid() && this.file == file && log == [] && nextLsn == 1 && flushedLsn == 0
    {
      this.file := file;
      nextLsn, flushedLsn, log := 1, 0, [];
    }

    /** wal_open, on a file that holds the log up to byte `n`. */
    constructor Open(file: WalFile, ghost log: seq<Record>)
      requires AllFit(log) && Numbered(log) && file.bytes <= LogBytes(log)
      ensures this.file == file && flushedLsn == nextLsn - 1
      ensures nextLsn == 1 + HeadersWithin(log, |file.bytes|)
      ensures file.bytes == LogBytes(log) ==> Valid() && this.log == log
    {
      var max := ScanHeaders(file, log);
      this.file := file;
      nextLsn, flushedLsn := max + 1, max;
      this.log := log;
      new;
      if file.bytes == LogBytes(log) {
        WholeLog(log);
      }
    }

    /** wal_append */
    method Append(txn: nat, op: Op, table: nat, id: nat, old_: Option<seq<Byte>>, new_: Option<seq<Byte>>, size: nat)
      returns (lsn: nat)
      requires Valid() && nextLsn < 0x1_0000_0000_0000_0000
      requires txn < 0x1_0000_0000 && table < 256 && id < 0x1_0000_0000 && size < 0x1_0000
      requires (old_.Some? ==> |old_.value| == size) && (new_.Some? ==> |new_.value| == size)
      modifies this, file
      ensures Valid() && lsn == old(nextLsn) && flushedLsn == old(flushedLsn)
      ensures log == old(log) + [Record(lsn, txn, op, table, id, Image(old_, size), Image(new_, size))]
      ensures Tells(log[|log| - 1], Change(txn, op, table, id, old_, new_, size)) == true
    {
      var r := Record(nextLsn, txn, op, table, id, Image(old_, size), Image(new_, size));
      ghost var before := log;
      file.bytes := file.bytes + HeaderBytes(r);
      if size > 0 {
        file.bytes := file.bytes + Image(old_, size);
        file.bytes := file.bytes + Image(new_, size);
      }
      AppendedBytes(before, r);
      RecordTells(nextLsn, Change(txn, op, table, id, old_, new_, size));
      log := log + [r];
      lsn := nextLsn;
      nextLsn := nextLsn + 1;
    }

    /** wal_flush */
    method Flush()
      requires Valid()
      modifies this
      ensures Valid() && log == old(log) && flushedLsn == nextLsn - 1
    {
      flushedLsn := nextLsn - 1;
    }
  }

  lemma AppendedBytes(log: seq<Record>, r: Record)
    requires AllFit(log) && Fits(r)
    ensures AllFit(log + [r])
    ensures LogBytes(log + [r]) == LogBytes(log) + HeaderBytes(r) + r.old_ + r.new_
    ensures |r.new_| == 0 ==> LogBytes(log + [r]) == LogBytes(log) + HeaderBytes(r)
  {
    var all := log + [r];
    assert all[..|all| - 1] == log;
  }

  // ---------------------------------------------------------------------------
  // Scanning and recovering
  // ---------------------------------------------------------------------------

  /** The records whose headers lie within the first `n` bytes: the complete ones, and a torn one whose header is whole. */
  ghost function HeadersWithin(log: seq<Record>, n: nat): nat {
    var c := Complete(log, n);
    if Start(log, c) + HEADER <= n then c + 1 else c
  }

  lemma WholeLog(log: seq<Record>)
    requires AllFit(log)
    ensures Complete(log, |LogBytes(log)|) == |log| && HeadersWithin(log, |LogBytes(log)|) == |log|
  {
    WholeStart(log);
    CompleteIs(log, |LogBytes(log)|, |log|);
  }

  lemma PrefixSlice<T>(cut: seq<T>, all: seq<T>, p: nat, q: nat)
    requires cut <= all && p <= q <= |cut|
    ensures cut[p..q] == all[p..q]
  {
  }

  lemma SliceOfSlice<T>(s: seq<T>, p: nat, q: nat, b: seq<T>, n: nat)
    requires p <= q <= |s| && s[p..q] == b && n <= |b|
    ensures s[p..p + n] == b[..n]
  {
  }

  /** What of record `i` lies within the cut is there unchanged. */
  lemma RecordInCut(log: seq<Record>, cut: seq<Byte>, i: nat, n: nat)
    requires AllFit(log) && cut <= LogBytes(log) && i < |log| && n <= HEADER + 2 * |log[i].new_| && Start(log, i) + n <= |cut|
    ensures cut[Start(log, i)..Start(log, i) + n] == RecordBytes(log[i])[..n]
  {
    var p := Start(log, i);
    RecordAt(log, i);
    SliceOfSlice(LogBytes(log), p, Start(log, i + 1), RecordBytes(log[i]), n);
    PrefixSlice(cut, LogBytes(log), p, p + n);
  }

  /** With its header within the cut, record `i` reads back from the cut file. */
  lemma HeaderInCut(log: seq<Record>, cut: seq<Byte>, i: nat)
    requires AllFit(log) && cut <= LogBytes(log) && i < |log| && Start(log, i) + HEADER <= |cut|
    ensures ReadHeader(cut[Start(log, i)..]) == HeaderOf(log[i])
  {
    var p := Start(log, i);
    RecordInCut(log, cut, i, HEADER);
    assert RecordBytes(log[i])[..HEADER] == HeaderBytes(log[i]);
    HeaderAtFront(cut, p, HeaderBytes(log[i]));
    HeaderRoundTrip(log[i], cut[p + HEADER..]);
  }

  lemma HeaderAtFront(cut: seq<Byte>, p: nat, h: seq<Byte>)
    requires |h| == HEADER && p + HEADER <= |cut| && cut[p..p + HEADER] == h
    ensures cut[p..] == h + cut[p + HEADER..]
  {
  }

  /** Three pieces laid end to end are found where they begin. */
  lemma ThreePieces<T>(s: seq<T>, p: nat, h: seq<T>, a: seq<T>, b: seq<T>)
    requires p + |h| + |a| + |b| <= |s| && s[p..p + |h| + |a| + |b|] == h + (a + b)
    ensures s[p + |h|..p + |h| + |a|] == a && s[p + |h| + |a|..p + |h| + |a| + |b|] == b
  {
    var all := h + (a + b);
    InnerSlice(s, p, all, |h|, |h| + |a|);
    InnerSlice(s, p, all, |h| + |a|, |all|);
    assert all[|h|..|h| + |a|] == a && all[|h| + |a|..|all|] == b;
  }

  lemma WholeInCut(log: seq<Record>, cut: seq<Byte>, i: nat)
    requires AllFit(log) && cut <= LogBytes(log) && i < |log| && Start(log, i) + HEADER + 2 * |log[i].new_| <= |cut|
    ensures cut[Start(log, i)..Start(log, i) + HEADER + 2 * |log[i].new_|] == RecordBytes(log[i])
  {
    var b := RecordBytes(log[i]);
    RecordInCut(log, cut, i, |b|);
    WholeSlice(b, |b|);
  }

  /** A record that lies within the cut, at offset `p`: there are its images. */
  lemma ImagesInCut(log: seq<Record>, cut: seq<Byte>, i: nat, p: nat, r: Record)
    requires AllFit(log) && cut <= LogBytes(log) && i < |log| && p == Start(log, i) && r == log[i] && Fits(r)
    requires p + HEADER + 2 * |r.new_| <= |cut|
    ensures var q, n := p + HEADER, |r.new_|; cut[q..q + n] == r.old_ && cut[q + n..q + 2 * n] == r.new_
  {
    assert cut[p..p + HEADER + 2 * |r.new_|] == RecordBytes(r) by {
      WholeInCut(log, cut, i);
    }
    ImagesFrom(cut, p, r, RecordBytes(r), HeaderBytes(r));
  }

  lemma ImagesFrom(cut: seq<Byte>, p: nat, r: Record, bytes: seq<Byte>, h: seq<Byte>)
    requires |r.old_| == |r.new_| && |h| == HEADER && bytes == h + (r.old_ + r.new_)
    requires p + HEADER + 2 * |r.new_| <= |cut| && cut[p..p + HEADER + 2 * |r.new_|] == bytes
    ensures var q, n := p + HEADER, |r.new_|; cut[q..q + n] == r.old_ && cut[q + n..q + 2 * n] == r.new_
  {
    ThreePieces(cut, p, h, r.old_, r.new_);
  }

  lemma WholeSlice<T>(b: seq<T>, n: nat)
    requires n == |b|
    ensures b[..n] == b
  {
  }

  lemma InnerSlice<T>(s: seq<T>, p: nat, b: seq<T>, i: nat, j: nat)
    requires p + |b| <= |s| && s[p..p + |b|] == b && i <= j <= |b|
    ensures s[p + i..p + j] == b[i..j]
  {
    forall k | 0 <= k < j - i ensures s[p + i..p + j][k] == b[i..j][k] {
      assert s[p..p + |b|][i + k] == s[p + i + k] == b[i + k];
    }
  }

  /** Nothing lies beyond the last record. */
  lemma NoMore(log: seq<Record>, cut: seq<Byte>, i: nat)
    requires AllFit(log) && cut <= LogBytes(log) && i <= |log| && Start(log, i) < |cut|
    ensures i < |log|
  {
    WholeStart(log);
  }

  /** Where a record starts and a header still fits, the next record's header is read, and its size leads to the one after. */
  lemma HeaderHere(log: seq<Record>, cut: seq<Byte>, i: nat)
    requires AllFit(log) && Numbered(log) && cut <= LogBytes(log) && i <= |log| && Start(log, i) + HEADER <= |cut|
    ensures i < |log|
    ensures var h := ReadHeader(cut[Start(log, i)..]);
            h == HeaderOf(log[i]) && h.lsn == i + 1 && Start(log, i + 1) == Start(log, i) + HEADER + 2 * h.size
  {
    NoMore(log, cut, i);
    HeaderInCut(log, cut, i);
  }

  /** One header, and what the scan of wal_open wants of it. */
  method NextHeader(file: WalFile, pos: nat, ghost log: seq<Record>, ghost i: nat) returns (lsn: nat, size: nat)
    requires AllFit(log) == true && Numbered(log) == true && file.bytes <= LogBytes(log) && i <= |log|
    requires pos == Start(log, i) && pos + HEADER <= |file.bytes|
    ensures i < |log| && lsn == i + 1 && Start(log, i + 1) == pos + HEADER + 2 * size
  {
    HeaderHere(log, file.bytes, i);
    var h := ReadHeader(file.bytes[pos..]);
    lsn, size := h.lsn, h.size;
  }

  /** The scan of wal_open: it skips over images without looking whether they are there. */
  method ScanHeaders(file: WalFile, ghost log: seq<Record>) returns (max: nat)
    requires AllFit(log) && Numbered(log) && file.bytes <= LogBytes(log)
    ensures max == HeadersWithin(log, |file.bytes|)
  {
    max := 0;
    var pos := 0;
    ghost var i := 0;
    while pos + HEADER <= |file.bytes|
      invariant 0 <= i <= |log| && pos == Start(log, i) && max == i
      invariant i > 0 ==> Start(log, i - 1) + HEADER <= |file.bytes|
      decreases |file.bytes| - pos
    {
      var lsn, size := NextHeader(file, pos, log, i);
      if lsn > max {
        max := lsn;
      }
      pos := pos + HEADER;
      if size > 0 {
        pos := pos + size * 2;
      }
      i := i + 1;
    }
    ScanEnds(log, |file.bytes|, i);
  }

  lemma ScanEnds(log: seq<Record>, n: nat, i: nat)
    requires i <= |log| && n < Start(log, i) + HEADER
    requires i > 0 ==> Start(log, i - 1) + HEADER <= n
    ensures HeadersWithin(log, n) == i
  {
    if Start(log, i) <= n {
      CompleteIs(log, n, i);
    } else {
      CompleteIs(log, n, i - 1);
    }
  }

  /** wal_recover: it hands out exactly the records that are complete, in order, with their images. */
  method Recover(file: WalFile, ghost log: seq<Record>) returns (replayed: seq<Record>)
    requires AllFit(log) && Numbered(log) && file.bytes <= LogBytes(log)
    ensures replayed == log[..Complete(log, |file.bytes|)]
  {
    replayed := [];
    var pos := 0;
    ghost var cut := file.bytes;
    while pos + HEADER <= |file.bytes|
      invariant |replayed| <= |log| && pos == Start(log, |replayed|) <= |cut| && replayed == log[..|replayed|]
      decreases |file.bytes| - pos
    {
      ghost var i := |replayed|;
      NoMore(log, cut, i);
      HeaderInCut(log, cut, i);
      var h := ReadHeader(file.bytes[pos..]);
      if h.lsn == INVALID_LSN {
        break;
      }
      var p := pos + HEADER;
      if p + h.size > |file.bytes| || p + 2 * h.size > |file.bytes| {
        break;
      }
      ImagesInCut(log, cut, i, pos, log[i]);
      replayed := replayed + [Record(h.lsn, h.txn, h.op.value, h.table, h.id,
                                     file.bytes[p..p + h.size], file.bytes[p + h.size..p + 2 * h.size])];
      pos := p + 2 * h.size;
    }
    RecoverEnds(log, |cut|, |replayed|);
  }

  lemma RecoverEnds(log: seq<Record>, n: nat, i: nat)
    requires i <= |log| && Start(log, i) <= n
    requires i < |log| ==> n < Start(log, i) + HEADER || n < Start(log, i + 1)
    ensures Complete(log, n) == i
  {
    CompleteIs(log, n, i);
  }

  /** Recovery and reopening of a log cut off at any byte: numbering goes on right behind the last record replayed if and
      only if fewer bytes than a header follow it. Otherwise the torn record's number is skipped: wal_open reads its header
      and steps over images that are not there. */
  method RecoverAndOpen(file: WalFile, ghost log: seq<Record>) returns (replayed: seq<Record>, wal: Wal)
    requires AllFit(log) && Numbered(log) && file.bytes <= LogBytes(log)
    ensures replayed == log[..Complete(log, |file.bytes|)] && fresh(wal) && wal.file == file
    ensures wal.nextLsn == |replayed| + 1 <==> |file.bytes| < Start(log, |replayed|) + HEADER
    ensures wal.nextLsn == |replayed| + 1 || wal.nextLsn == |replayed| + 2
  {
    replayed := Recover(file, log);
    wal := new Wal.Open(file, log);
  }

  /** A log of one record, cut behind its header: nothing is replayed, yet the next record will be number 2. */
  lemma TornRecordSkips() returns (log: seq<Record>, n: nat)
    ensures AllFit(log) && Numbered(log) && n < |LogBytes(log)|
    ensures Complete(log, n) == 0 && HeadersWithin(log, n) == 1
  {
    log, n := [Record(1, 0, Insert, 0, 1, [0], [7])], HEADER;
    WholeStart(log);
    assert Start(log, 1) == HEADER + 2;
    CompleteIs(log, n, 0);
  }

  datatype Change = Change(txn: nat, op: Op, table: nat, id: nat, old_: Option<seq<Byte>>, new_: Option<seq<Byte>>, size: nat)

  ghost predicate ChangeOk(c: Change) {
    && c.txn < 0x1_0000_0000 && c.table < 256 && c.id < 0x1_0000_0000 && c.size < 0x1_0000
    && (c.old_.Some? ==> |c.old_.value| == c.size) && (c.new_.Some? ==> |c.new_.value| == c.size)
  }

  ghost function RecordFor(lsn: nat, c: Change): Record
    requires ChangeOk(c)
  {
    Record(lsn, c.txn, c.op, c.table, c.id, Image(c.old_, c.size), Image(c.new_, c.size))
  }

  /** The record carries the change: the images that were given, and zeros of the same length for one that was not. */
  ghost predicate Tells(r: Record, c: Change) {
    && r.txn == c.txn && r.op == c.op && r.table == c.table && r.id == c.id && |r.old_| == |r.new_| == c.size
    && (if c.old_.Some? then r.old_ == c.old_.value else forall i :: 0 <= i < c.size ==> r.old_[i] == 0)
    && (if c.new_.Some? then r.new_ == c.new_.value else forall i :: 0 <= i < c.size ==> r.new_[i] == 0)
  }

  lemma RecordTells(lsn: nat, c: Change)
    requires ChangeOk(c)
    ensures Tells(RecordFor(lsn, c), c) == true
  {
  }

  ghost predicate ChangesOk(cs: seq<Change>) {
    forall i :: 0 <= i < |cs| ==> ChangeOk(cs[i])
  }

  /** The records the first `k` changes add to a log of `n` records. */
  ghost function Logged(n: nat, cs: seq<Change>, k: nat): (r: seq<Record>)
    requires ChangesOk(cs) && k <= |cs|
    ensures |r| == k
  {
    if k == 0 then [] else Logged(n, cs, k - 1) + [RecordFor(n + k, cs[k - 1])]
  }

  /** Each change has its record, in order and under the next number. */
  lemma {:induction false} LoggedTells(n: nat, cs: seq<Change>, k: nat, i: nat)
    requires ChangesOk(cs) && i < k <= |cs|
    ensures Tells(Logged(n, cs, k)[i], cs[i]) && Logged(n, cs, k)[i].lsn == n + i + 1
    decreases k
  {
    if i < k - 1 {
      LoggedTells(n, cs, k - 1, i);
    } else {
      RecordTells(n + k, cs[i]);
    }
  }

  /** What recovery of a log cut off at byte `n` hands out for the changes of a session: their operation, row and images, with
      zeros for the image an insert or a delete did not give. */
  lemma RecoveredTells(log: seq<Record>, cs: seq<Change>, n: nat, i: nat)
    requires ChangesOk(cs) && i < |cs|
    ensures var all := log + Logged(|log|, cs, |cs|); var replayed := all[..Complete(all, n)];
            |log| + i < |replayed| ==> Tells(replayed[|log| + i], cs[i]) && replayed[|log| + i].lsn == |log| + i + 1
  {
    LoggedTells(|log|, cs, |cs|, i);
  }

  /** One session: open the log, append, flush and close. Numbering goes on where the last session stopped. */
  method Session(file: WalFile, cs: seq<Change>, ghost log: seq<Record>) returns (ghost log': seq<Record>)
    requires AllFit(log) && Numbered(log) && file.bytes == LogBytes(log)
    requires ChangesOk(cs) && |log| + |cs| < 0x1_0000_0000_0000_0000 - 1
    modifies file
    ensures log' == log + Logged(|log|, cs, |cs|)
    ensures AllFit(log') && Numbered(log') && file.bytes == LogBytes(log')
  {
    var wal := new Wal.Open(file, log);
    var i := 0;
    assert log + [] == log;
    while i < |cs|
      invariant i <= |cs| && wal.Valid() && wal.file == file && fresh(wal)
      invariant wal.log == log + Logged(|log|, cs, i)
    {
      var c := cs[i];
      var _ := wal.Append(c.txn, c.op, c.table, c.id, c.old_, c.new_, c.size);
      AppendAssoc(log, Logged(|log|, cs, i), [RecordFor(|log| + i + 1, c)]);
      i := i + 1;
    }
    wal.Flush();
    log' := wal.log;
  }

  /** The changes of the first `k` sessions, one after another. */
  ghost function Together(sessions: seq<seq<Change>>, k: nat): seq<Change>
    requires k <= |sessions|
  {
    if k == 0 then [] else Together(sessions, k - 1) + sessions[k - 1]
  }

  lemma {:induction false} LoggedTwice(n: nat, a: seq<Change>, b: seq<Change>, k: nat)
    requires ChangesOk(a) && ChangesOk(b) && k <= |b|
    ensures ChangesOk(a + b) && Logged(n, a + b, |a| + k) == Logged(n, a, |a|) + Logged(n + |a|, b, k)
    decreases k
  {
    if k == 0 {
      LoggedFront(n, a, b, |a|);
      AppendNothing(Logged(n, a, |a|));
    } else {
      LoggedTwice(n, a, b, k - 1);
      AppendAssoc(Logged(n, a, |a|), Logged(n + |a|, b, k - 1), [RecordFor(n + |a| + k, b[k - 1])]);
    }
  }

  lemma {:induction false} LoggedFront(n: nat, a: seq<Change>, b: seq<Change>, k: nat)
    requires ChangesOk(a) && ChangesOk(a + b) && k <= |a|
    ensures Logged(n, a + b, k) == Logged(n, a, k)
    decreases k
  {
    if k > 0 {
      LoggedFront(n, a, b, k - 1);
    }
  }

  ghost predicate SessionsOk(sessions: seq<seq<Change>>) {
    forall i :: 0 <= i < |sessions| ==> ChangesOk(sessions[i])
  }

  lemma {:induction false} TogetherOk(sessions: seq<seq<Change>>, k: nat)
    requires k <= |sessions| && SessionsOk(sessions)
    ensures ChangesOk(Together(sessions, k))
    decreases k
  {
    if k > 0 {
      TogetherOk(sessions, k - 1);
    }
  }

  lemma {:induction false} TogetherGrows(sessions: seq<seq<Change>>, j: nat, k: nat)
    requires j <= k <= |sessions|
    ensures |Together(sessions, j)| <= |Together(sessions, k)|
    decreases k
  {
    if j < k {
      TogetherGrows(sessions, j, k - 1);
    }
  }

  /** The log after the first `i` sessions. */
  ghost function LogAfter(log: seq<Record>, sessions: seq<seq<Change>>, i: nat): (r: seq<Record>)
    requires i <= |sessions| && SessionsOk(sessions)
    ensures |r| == |log| + |Together(sessions, i)|
  {
    TogetherOk(sessions, i);
    log + Logged(|log|, Together(sessions, i), |Together(sessions, i)|)
  }

  lemma OneSessionMore(log: seq<Record>, sessions: seq<seq<Change>>, i: nat)
    requires i < |sessions| && SessionsOk(sessions)
    ensures var before := LogAfter(log, sessions, i);
            before + Logged(|before|, sessions[i], |sessions[i]|) == LogAfter(log, sessions, i + 1)
  {
    var before := Together(sessions, i);
    TogetherOk(sessions, i);
    LoggedTwice(|log|, before, sessions[i], |sessions[i]|);
    AppendAssoc(log, Logged(|log|, before, |before|), Logged(|log| + |before|, sessions[i], |sessions[i]|));
  }

  method NextSession(file: WalFile, sessions: seq<seq<Change>>, i: nat, ghost log: seq<Record>, ghost before: seq<Record>)
    returns (ghost log': seq<Record>)
    requires i < |sessions| && SessionsOk(sessions) && before == LogAfter(log, sessions, i)
    requires AllFit(before) == true && Numbered(before) == true && file.bytes == LogBytes(before)
    requires |log| + |Together(sessions, |sessions|)| < 0x1_0000_0000_0000_0000 - 1
    modifies file
    ensures log' == LogAfter(log, sessions, i + 1)
    ensures AllFit(log') == true && Numbered(log') == true && file.bytes == LogBytes(log')
  {
    TogetherGrows(sessions, i + 1, |sessions|);
    OneSessionMore(log, sessions, i);
    log' := Session(file, sessions[i], before);
  }

  /** Any number of sessions, each opening the file the last one closed, leaves the log that one long session would have. */
  method Sessions(file: WalFile, sessions: seq<seq<Change>>, ghost log: seq<Record>) returns (ghost log': seq<Record>)
    requires AllFit(log) && Numbered(log) && file.bytes == LogBytes(log) && SessionsOk(sessions)
    requires |log| + |Together(sessions, |sessions|)| < 0x1_0000_0000_0000_0000 - 1
    modifies file
    ensures ChangesOk(Together(sessions, |sessions|))
    ensures var all := Together(sessions, |sessions|); log' == log + Logged(|log|, all, |all|)
    ensures AllFit(log') && Numbered(log') && file.bytes == LogBytes(log')
  {
    var i := 0;
    log' := log;
    AppendNothing(log);
    TogetherOk(sessions, |sessions|);
    while i < |sessions|
      invariant i <= |sessions| && log' == LogAfter(log, sessions, i)
      invariant AllFit(log') == true && Numbered(log') == true && file.bytes == LogBytes(log')
    {
      log' := NextSession(file, sessions, i, log, log');
      i := i + 1;
    }
  }
}
