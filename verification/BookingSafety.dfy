// No double booking: whatever book and cancel requests run, and however their steps interleave, no seat is ever
// claimed by two confirmed bookings.
module BookingSafety {
  import opened BookingModel
  import opened Common

  ghost predicate Ascending(s: seq<Id>) {
    forall i, j :: 0 <= i < j < |s| ==> s[i] < s[j]
  }

  // ---------------------------------------------------------------------------
  // What a thread holds, and which booking it works on
  // ---------------------------------------------------------------------------

  /** The seats whose locks a booking thread has. */
  ghost function BookHeld(j: BookJob): seq<Id> {
    match j.pc
    case BkEvent => []
    case BkBegin => []
    case BkLock => Take(j.seats, j.i)
    case _ => j.seats
  }

  ghost function CancelHolds(j: CancelJob): seq<Id> {
    match j.pc
    case CnSeatLock => Take(j.seats, j.i)
    case CnRead => Take(j.seats, j.i + 1)
    case CnFree => Take(j.seats, j.i + 1)
    case CnMark => j.seats
    case CnCommit => j.seats
    case _ => []
  }

  ghost predicate Holds(th: Thread, r: Record) {
    match th
    case Book(j) => r.SeatRow? && r.id in BookHeld(j)
    case Cancel(j) =>
      if r.BookingRow? then r.id == j.id && j.pc != CnBegin && j.pc != CnLock else r.id in CancelHolds(j)
    case Release(held, _) => r in held
    case _ => false
  }

  /** The booking a thread has created and is still filling in. */
  ghost function Recorder(th: Thread): Option<Id> {
    if th.Book? && th.b.pc in {BkRow, BkRead, BkMark, BkCommit} then Some(th.b.id) else None
  }

  /** The booking whose claims a thread may be changing. */
  ghost function Worker(th: Thread): Option<Id> {
    if th.Cancel? && th.c.pc in {CnSeatLock, CnRead, CnFree, CnMark, CnCommit} then Some(th.c.id) else Recorder(th)
  }

  // ---------------------------------------------------------------------------
  // The invariant
  // ---------------------------------------------------------------------------

  /** The lock table and the threads' progress agree on who holds what. */
  ghost predicate LocksOk(s: State) {
    && (forall r :: r in s.locks ==> s.locks[r] in s.threads && Holds(s.threads[s.locks[r]], r))
    && (forall t, r {:trigger Holds(s.threads[t], r)} :: t in s.threads && Holds(s.threads[t], r) ==> r in s.locks && s.locks[r] == t)
  }

  /** How many seats a booking thread has checked, and how many it has marked. */
  ghost function Checked(j: BookJob): nat {
    match j.pc
    case BkEvent => 0
    case BkBegin => 0
    case BkLock => 0
    case BkCheck => j.i
    case _ => |j.seats|
  }

  ghost function Marked(j: BookJob): nat {
    match j.pc
    case BkRow => j.i
    case BkRead => j.i
    case BkMark => j.i
    case BkCommit => |j.seats|
    case _ => 0
  }

  /** How many junction rows a booking thread has inserted. */
  ghost function Rowed(j: BookJob): nat {
    match j.pc
    case BkRow => j.i
    case BkRead => j.i + 1
    case BkMark => j.i + 1
    case BkCommit => |j.seats|
    case _ => 0
  }

  ghost predicate SeatOk(s: State, j: BookJob, k: nat)
    requires k < |j.seats|
  {
    var x := j.seats[k];
    && x in s.seats && s.seats[x].event == j.event
    && (k < Marked(j) ==> s.seats[x] == Seat(j.event, Booked, j.user))
    && (k >= Marked(j) ==> s.seats[x].status == Available)
  }

  ghost predicate BookOk(s: State, j: BookJob) {
    && 1 <= |j.seats| <= MAX_SEATS && Distinct(j.seats)
    && (j.pc != BkEvent && j.pc != BkBegin ==> Ascending(j.seats))
    && j.i <= |j.seats| && (j.pc == BkRead || j.pc == BkMark ==> j.i < |j.seats|)
    && (forall k :: 0 <= k < Checked(j) ==> SeatOk(s, j, k))
    && (Recorder(Book(j)).Some? ==>
          && j.id in s.bookings
          && s.bookings[j.id].(status := Confirmed) == Booking(j.user, j.event, |j.seats|, Confirmed)
          && RowsOf(s.rows, j.id) == j.seats[..Rowed(j)])
    && (j.pc == BkMark ==> j.buf == Seat(j.event, Booked, j.user))
  }

  /** How many seats a cancellation has freed so far. */
  ghost function Freed(j: CancelJob): nat {
    match j.pc
    case CnSeatLock => j.i
    case CnRead => j.i
    case CnFree => j.i
    case CnMark => |j.seats|
    case _ => 0
  }

  ghost predicate SeatFree(s: State, x: Id) {
    x in s.seats && s.seats[x].status == Available && s.seats[x].bookedBy == 0
  }

  ghost predicate CancelOk(s: State, j: CancelJob) {
    && j.i <= |j.seats| && (j.pc == CnRead || j.pc == CnFree ==> j.i < |j.seats|)
    && (j.pc in {CnScan, CnSeatLock, CnRead, CnFree, CnMark} ==>
          j.id in s.bookings && s.bookings[j.id] == j.found && j.found.status == Confirmed && j.found.user == j.user)
    && (j.pc == CnCommit ==> j.id in s.bookings && s.bookings[j.id].status == Cancelled)
    && (Worker(Cancel(j)).Some? ==>
          Ascending(j.seats) && forall k :: 0 <= k < |j.seats| ==> j.seats[k] in RowsOf(s.rows, j.id))
    && (forall k :: 0 <= k < Freed(j) ==> SeatFree(s, j.seats[k]))
    && (j.pc == CnFree ==> j.seats[j.i] in s.seats && j.buf == s.seats[j.seats[j.i]].(status := Available, bookedBy := 0))
  }

  ghost predicate ThreadOk(s: State, th: Thread) {
    match th
    case Book(j) => BookOk(s, j)
    case Cancel(j) => CancelOk(s, j)
    case Release(held, _) => Distinct(held)
    case _ => true
  }

  ghost predicate ThreadsOk(s: State) {
    forall t {:trigger s.threads[t]} :: t in s.threads ==> ThreadOk(s, s.threads[t])
  }

  ghost predicate RecordersDiffer(s: State) {
    forall t, u :: t in s.threads && u in s.threads && t != u && Recorder(s.threads[t]).Some?
                   ==> Recorder(s.threads[t]) != Recorder(s.threads[u])
  }

  /** Junction rows belong to existing bookings and seats; ids are handed out in order. */
  ghost predicate TablesOk(s: State) {
    && (forall b :: b in s.bookings ==> b < s.nextBooking)
    && (forall x :: x in s.seats ==> x < s.nextSeat)
    && (forall b :: Ascending(RowsOf(s.rows, b)) && |RowsOf(s.rows, b)| <= MAX_SEATS)
    && (forall b, x {:trigger x in RowsOf(s.rows, b)} :: x in RowsOf(s.rows, b) ==> b in s.bookings && x in s.seats)
  }

  /** Booking `b` claims seat `x`. */
  ghost predicate Claims(s: State, b: Id, x: Id) {
    b in s.bookings && s.bookings[b].status == Confirmed && x in RowsOf(s.rows, b)
  }

  /** A claimed seat is marked, or locked by the thread that is working on the claim. */
  ghost predicate Guarded(s: State, b: Id, x: Id)
    requires x in s.seats && LocksOk(s)
  {
    || s.seats[x].status == Booked
    || (SeatRow(x) in s.locks && Worker(s.threads[s.locks[SeatRow(x)]]) == Some(b))
  }

  ghost predicate ClaimsGuarded(s: State)
    requires LocksOk(s) && TablesOk(s)
  {
    forall b, x :: Claims(s, b, x) ==> Guarded(s, b, x)
  }

  /** The point of it all. */
  ghost predicate NoDoubleBooking(s: State) {
    forall b, c, x :: b != c && Claims(s, b, x) ==> !Claims(s, c, x)
  }

  ghost predicate Inv(s: State) {
    && LocksOk(s) && TablesOk(s) && ThreadsOk(s)
    && RecordersDiffer(s) && ClaimsGuarded(s) && NoDoubleBooking(s)
  }

  lemma InitialInv()
    ensures Inv(Initial)
  {
  }

  // ---------------------------------------------------------------------------
  // Steps that change one thread and nothing else
  // ---------------------------------------------------------------------------

  ghost predicate SameHolds(a: Thread, b: Thread) {
    forall r :: Holds(a, r) <==> Holds(b, r)
  }

  /** Claims that the thread was guarding stay guarded, by it or by a mark. */
  ghost predicate GuardKept(s: State, t: Tid, th: Thread)
    requires t in s.threads
  {
    Worker(s.threads[t]).Some? && Worker(th) != Worker(s.threads[t]) ==>
      forall x :: Claims(s, Worker(s.threads[t]).value, x) ==> x in s.seats && s.seats[x].status == Booked
  }

  /** What a thread relies on survives new rows, and new statuses of bookings it is not cancelling. */
  lemma ThreadKept(s: State, s': State, th: Thread)
    requires ThreadOk(s, th) && s'.rows == s.rows
    requires forall x :: x in s.seats ==> x in s'.seats && s'.seats[x] == s.seats[x]
    requires forall b :: b in s.bookings ==>
               b in s'.bookings && s'.bookings[b].(status := Confirmed) == s.bookings[b].(status := Confirmed)
    requires th.Cancel? && th.c.id in s.bookings ==> s'.bookings[th.c.id] == s.bookings[th.c.id]
    ensures ThreadOk(s', th)
  {
    match th
    case Book(j) =>
      forall k | 0 <= k < Checked(j) ensures SeatOk(s', j, k) {
        assert SeatOk(s, j, k);
      }
    case Cancel(j) =>
      forall k | 0 <= k < Freed(j) ensures SeatFree(s', j.seats[k]) {
        assert SeatFree(s, j.seats[k]);
      }
    case _ =>
  }

  lemma ThreadsStep(s: State, s': State, t: Tid, th: Thread)
    requires ThreadsOk(s) && ThreadOk(s, th) && s'.threads == s.threads[t := th]
    requires s'.seats == s.seats && s'.bookings == s.bookings && s'.rows == s.rows
    ensures ThreadsOk(s')
  {
    forall u | u in s'.threads ensures ThreadOk(s', s'.threads[u]) {
      ThreadKept(s, s', if u == t then th else s.threads[u]);
    }
  }

  lemma SameClaims(s: State, s': State)
    requires s'.bookings == s.bookings && s'.rows == s.rows
    ensures forall b, x :: Claims(s', b, x) == Claims(s, b, x)
    ensures NoDoubleBooking(s) ==> NoDoubleBooking(s')
  {
  }

  lemma RecordersStep(s: State, s': State, t: Tid, th: Thread)
    requires RecordersDiffer(s) && t in s.threads && s'.threads == s.threads[t := th]
    requires Recorder(th).Some? ==> Recorder(th) == Recorder(s.threads[t])
    ensures RecordersDiffer(s')
  {
  }

  lemma ThreadStep(s: State, t: Tid, th: Thread)
    requires Inv(s) && t in s.threads && SameHolds(s.threads[t], th) && ThreadOk(s, th)
    requires Recorder(th).Some? ==> Recorder(th) == Recorder(s.threads[t])
    requires GuardKept(s, t, th)
    ensures Inv(With(s, t, th))
  {
    var s' := With(s, t, th);
    ThreadsStep(s, s', t, th);
    SameClaims(s, s');
    RecordersStep(s, s', t, th);
    forall b, x | Claims(s', b, x) ensures Guarded(s', b, x) {
      assert Claims(s, b, x) && Guarded(s, b, x);
    }
  }

  lemma AcquireLocks(s: State, t: Tid, th: Thread, r: Record)
    requires LocksOk(s) && t in s.threads && Free(s, t, r)
    requires forall q :: Holds(th, q) <==> Holds(s.threads[t], q) || q == r
    ensures LocksOk(Acquire(With(s, t, th), t, r))
  {
    var s' := Acquire(With(s, t, th), t, r);
    forall q | q in s'.locks ensures s'.locks[q] in s'.threads && Holds(s'.threads[s'.locks[q]], q) {
      if q != r {
        assert q in s.locks && Holds(s.threads[s.locks[q]], q);
      }
    }
    forall u, q | u in s'.threads && Holds(s'.threads[u], q) ensures q in s'.locks && s'.locks[q] == u {
      if u != t {
        assert Holds(s.threads[u], q);
      }
    }
  }

  /** A thread takes a free lock. */
  lemma AcquireStep(s: State, t: Tid, th: Thread, r: Record)
    requires Inv(s) && t in s.threads && Free(s, t, r) && ThreadOk(s, th)
    requires forall q :: Holds(th, q) <==> Holds(s.threads[t], q) || q == r
    requires Recorder(th) == Recorder(s.threads[t]) && Worker(th) == Worker(s.threads[t])
    ensures Inv(Acquire(With(s, t, th), t, r))
  {
    var s' := Acquire(With(s, t, th), t, r);
    AcquireLocks(s, t, th, r);
    ThreadsStep(s, s', t, th);
    SameClaims(s, s');
    RecordersStep(s, s', t, th);
    forall b, x | Claims(s', b, x) ensures Guarded(s', b, x) {
      assert Claims(s, b, x) && Guarded(s, b, x);
    }
  }

  // ---------------------------------------------------------------------------
  // Steps that change locks or tables
  // ---------------------------------------------------------------------------

  lemma SameHolders(s: State, s': State, t: Tid, th: Thread)
    requires LocksOk(s) && t in s.threads && SameHolds(s.threads[t], th)
    requires s'.threads == s.threads[t := th] && s'.locks == s.locks
    ensures LocksOk(s')
  {
    forall r | r in s'.locks ensures s'.locks[r] in s'.threads && Holds(s'.threads[s'.locks[r]], r) {
      assert Holds(s.threads[s.locks[r]], r);
    }
  }

  lemma SameDomains(s: State, s': State)
    requires TablesOk(s) && s'.rows == s.rows && s'.nextSeat == s.nextSeat && s'.nextBooking == s.nextBooking
    requires (forall b :: b in s'.bookings <==> b in s.bookings) && (forall x :: x in s'.seats <==> x in s.seats)
    ensures TablesOk(s')
  {
  }

  lemma OneHolder(s: State, t: Tid, u: Tid, r: Record)
    requires LocksOk(s) && t in s.threads && u in s.threads && Holds(s.threads[t], r) && Holds(s.threads[u], r)
    ensures t == u && r in s.locks && s.locks[r] == t
  {
    var a, b := s.threads[t], s.threads[u];
    assert Holds(a, r) && Holds(b, r);
  }

  lemma RowsExist(s: State, b: Id)
    requires TablesOk(s)
    ensures RowsOf(s.rows, b) != [] ==> b in s.bookings
  {
    if RowsOf(s.rows, b) != [] {
      assert RowsOf(s.rows, b)[0] in RowsOf(s.rows, b);
    }
  }

  lemma HeldByOne(s: State, t: Tid, u: Tid, r: Record)
    requires LocksOk(s) && t in s.threads && u in s.threads && Holds(s.threads[t], r) && t != u
    ensures !Holds(s.threads[u], r)
  {
    if Holds(s.threads[u], r) {
      OneHolder(s, t, u, r);
    }
  }

  lemma RowsOfAppend(rows: seq<Junction>, r: Junction, b: Id)
    ensures RowsOf(rows + [r], b) == if r.booking == b then RowsOf(rows, b) + [r.seat] else RowsOf(rows, b)
  {
    assert (rows + [r])[..|rows|] == rows;
  }

  lemma ReleaseLocks(s: State, t: Tid)
    requires LocksOk(s) && t in s.threads && s.threads[t].Release? && s.threads[t].held != []
    requires Distinct(s.threads[t].held)
    ensures LocksOk(ActRelease(s, t))
  {
    var s', held := ActRelease(s, t), s.threads[t].held;
    assert held[0] in held && forall k :: 0 <= k < |held| - 1 ==> held[1..][k] == held[k + 1];
    forall q | q in s'.locks ensures s'.locks[q] in s'.threads && Holds(s'.threads[s'.locks[q]], q) {
      assert q in s.locks && Holds(s.threads[s.locks[q]], q);
    }
    forall u, q | u in s'.threads && Holds(s'.threads[u], q) ensures q in s'.locks && s'.locks[q] == u {
      assert Holds(s.threads[u], q);
      if q == held[0] {
        OneHolder(s, t, u, q);
      }
    }
  }

  /** The thread that works on what is locked with `r`, if the lock is taken. */
  ghost function WorkerAt(s: State, r: Record): Option<Id>
    requires LocksOk(s)
  {
    if r in s.locks then Worker(s.threads[s.locks[r]]) else None
  }

  lemma GuardsFrame(s: State, s': State)
    requires LocksOk(s) && TablesOk(s) && ClaimsGuarded(s) && LocksOk(s') && TablesOk(s')
    requires forall b, x :: Claims(s', b, x) ==> Claims(s, b, x)
    requires forall x :: x in s.seats ==> x in s'.seats && s'.seats[x].status == s.seats[x].status
    requires forall x :: WorkerAt(s, SeatRow(x)).Some? ==> WorkerAt(s', SeatRow(x)) == WorkerAt(s, SeatRow(x))
    ensures ClaimsGuarded(s')
  {
    forall b, x | Claims(s', b, x) ensures Guarded(s', b, x) {
      assert Claims(s, b, x) && Guarded(s, b, x);
      assert WorkerAt(s, SeatRow(x)).Some? ==> WorkerAt(s', SeatRow(x)) == WorkerAt(s, SeatRow(x));
    }
  }

  /** A thread that is releasing guards no claim. */
  lemma ReleaseGuards(s: State, t: Tid)
    requires Inv(s) && t in s.threads && s.threads[t].Release? && s.threads[t].held != []
    requires LocksOk(ActRelease(s, t)) && TablesOk(ActRelease(s, t))
    ensures ClaimsGuarded(ActRelease(s, t))
  {
    var s', held := ActRelease(s, t), s.threads[t].held;
    assert held[0] in held && Holds(s.threads[t], held[0]);
    forall x | WorkerAt(s, SeatRow(x)).Some? ensures WorkerAt(s', SeatRow(x)) == WorkerAt(s, SeatRow(x)) {
      assert s.locks[SeatRow(x)] != t;
    }
    SameClaims(s, s');
    GuardsFrame(s, s');
  }

  lemma ReleaseInv(s: State, t: Tid)
    requires Inv(s) && t in s.threads && s.threads[t].Release?
    ensures Inv(ActRelease(s, t)) == true
  {
    var s', th := ActRelease(s, t), s.threads[t];
    if th.held == [] {
      ThreadStep(s, t, Done(th.result));
    } else {
      assert ThreadOk(s, th);
      ReleaseLocks(s, t);
      ThreadsStep(s, s', t, s'.threads[t]);
      RecordersStep(s, s', t, s'.threads[t]);
      SameClaims(s, s');
      SameDomains(s, s');
      ReleaseGuards(s, t);
    }
  }

  lemma BookInsThreads(s: State, t: Tid)
    requires Inv(s) && t in s.threads && s.threads[t].Book? && s.threads[t].b.pc == BkInsert
    ensures ThreadsOk(ActBook(s, t)) && RecordersDiffer(ActBook(s, t))
  {
    var s', j, nb := ActBook(s, t), s.threads[t].b, s.nextBooking;
    assert ThreadOk(s, s.threads[t]) && nb !in s.bookings;
    RowsExist(s, nb);
    forall u | u in s'.threads ensures ThreadOk(s', s'.threads[u]) {
      if u == t {
        assert forall k :: 0 <= k < |j.seats| ==> SeatOk(s, j, k) ==> SeatOk(s', s'.threads[t].b, k);
      } else {
        ThreadKept(s, s', s.threads[u]);
      }
    }
    forall u | u in s.threads && Recorder(s.threads[u]).Some? ensures Recorder(s.threads[u]).value in s.bookings {
      assert ThreadOk(s, s.threads[u]);
    }
  }

  lemma BookInsInv(s: State, t: Tid)
    requires Inv(s) && t in s.threads && s.threads[t].Book? && s.threads[t].b.pc == BkInsert
    ensures Inv(ActBook(s, t)) == true
  {
    var s', nb := ActBook(s, t), s.nextBooking;
    BookInsThreads(s, t);
    SameHolders(s, s', t, s'.threads[t]);
    RowsExist(s, nb);
    assert TablesOk(s');
    forall b, x | Claims(s', b, x) ensures Claims(s, b, x) {
      assert b != nb;
    }
    forall b, x | Claims(s', b, x) ensures Guarded(s', b, x) {
      assert Claims(s, b, x) && Guarded(s, b, x);
    }
  }

  /** Whoever claims a seat that thread `t` has locked has marked it, or is `t`. */
  lemma ClaimsOnHeld(s: State, t: Tid, x: Id)
    requires Inv(s) && t in s.threads && Holds(s.threads[t], SeatRow(x))
    ensures forall c: Id :: Claims(s, c, x) ==> x in s.seats && (s.seats[x].status == Booked || Worker(s.threads[t]) == Some(c))
  {
    forall c: Id | Claims(s, c, x) ensures x in s.seats && (s.seats[x].status == Booked || Worker(s.threads[t]) == Some(c)) {
      assert Guarded(s, c, x);
    }
  }

  /** The claim a booking thread is about to make is not made by anyone else. */
  lemma SeatUnclaimed(s: State, t: Tid)
    requires Inv(s) && t in s.threads && s.threads[t].Book?
    requires var j := s.threads[t].b; j.pc == BkRow && j.i < |j.seats|
    ensures var j := s.threads[t].b; forall c: Id :: c != j.id ==> !Claims(s, c, j.seats[j.i])
  {
    var j := s.threads[t].b;
    var x := j.seats[j.i];
    assert ThreadOk(s, s.threads[t]) && SeatOk(s, j, j.i);
    assert Holds(s.threads[t], SeatRow(x));
    ClaimsOnHeld(s, t, x);
  }

  lemma RowAppendOther(s: State, s': State, th: Thread, r: Junction)
    requires ThreadOk(s, th) && Recorder(th) != Some(r.booking) && s'.rows == s.rows + [r]
    requires s'.seats == s.seats && s'.bookings == s.bookings
    ensures ThreadOk(s', th)
  {
    match th
    case Book(k) =>
      RowsOfAppend(s.rows, r, k.id);
      assert forall n :: 0 <= n < Checked(k) ==> SeatOk(s, k, n) ==> SeatOk(s', k, n);
    case Cancel(k) =>
      RowsOfAppend(s.rows, r, k.id);
      assert forall x :: SeatFree(s, x) ==> SeatFree(s', x);
    case _ =>
  }

  lemma RowAppendThreads(s: State, t: Tid)
    requires Inv(s) && t in s.threads && s.threads[t].Book?
    requires var j := s.threads[t].b; j.pc == BkRow && j.i < |j.seats|
    ensures ThreadsOk(ActBook(s, t))
  {
    var s', j := ActBook(s, t), s.threads[t].b;
    var r := Junction(j.id, j.seats[j.i]);
    assert ThreadOk(s, s.threads[t]) && Recorder(s.threads[t]) == Some(j.id);
    forall u | u in s'.threads ensures ThreadOk(s', s'.threads[u]) {
      if u == t {
        RowsOfAppend(s.rows, r, j.id);
        assert forall n :: 0 <= n < |j.seats| ==> SeatOk(s, j, n) ==> SeatOk(s', s'.threads[t].b, n);
        assert j.seats[..j.i + 1] == j.seats[..j.i] + [j.seats[j.i]];
      } else {
        RowAppendOther(s, s', s.threads[u], r);
      }
    }
  }

  lemma RowAppendTables(s: State, t: Tid)
    requires Inv(s) && t in s.threads && s.threads[t].Book?
    requires var j := s.threads[t].b; j.pc == BkRow && j.i < |j.seats|
    ensures TablesOk(ActBook(s, t))
  {
    var s', j := ActBook(s, t), s.threads[t].b;
    var r := Junction(j.id, j.seats[j.i]);
    assert ThreadOk(s, s.threads[t]) && SeatOk(s, j, j.i);
    assert j.seats[..j.i + 1] == j.seats[..j.i] + [j.seats[j.i]];
    assert s'.rows == s.rows + [r] && s'.seats == s.seats && s'.bookings == s.bookings;
    forall b ensures Ascending(RowsOf(s'.rows, b)) && |RowsOf(s'.rows, b)| <= MAX_SEATS {
      RowsOfAppend(s.rows, r, b);
    }
    assert j.id in s.bookings && j.seats[j.i] in s.seats;
    forall b, x | x in RowsOf(s'.rows, b) ensures b in s.bookings && x in s.seats {
      RowsOfAppend(s.rows, r, b);
      if x !in RowsOf(s.rows, b) {
        assert b == j.id && x == r.seat;
      }
    }
  }

  lemma RowAppendClaims(s: State, t: Tid)
    requires Inv(s) && t in s.threads && s.threads[t].Book? && LocksOk(ActBook(s, t)) && TablesOk(ActBook(s, t))
    requires var j := s.threads[t].b; j.pc == BkRow && j.i < |j.seats|
    ensures ClaimsGuarded(ActBook(s, t)) && NoDoubleBooking(ActBook(s, t))
  {
    var s', j := ActBook(s, t), s.threads[t].b;
    var y := j.seats[j.i];
    assert Holds(s.threads[t], SeatRow(y));
    SeatUnclaimed(s, t);
    forall b, x | Claims(s', b, x) ensures Claims(s, b, x) || (b == j.id && x == y) {
      RowsOfAppend(s.rows, Junction(j.id, y), b);
    }
    forall b, x | Claims(s', b, x) ensures Guarded(s', b, x) {
      if Claims(s, b, x) {
        assert Guarded(s, b, x);
      }
    }
    forall b, c, x | b != c && Claims(s', b, x) ensures !Claims(s', c, x) {
      assert x == y && b == j.id ==> !Claims(s, c, y);
      assert x == y && c == j.id ==> !Claims(s, b, y);
    }
  }

  lemma RowAppendInv(s: State, t: Tid)
    requires Inv(s) && t in s.threads && s.threads[t].Book?
    requires var j := s.threads[t].b; j.pc == BkRow && j.i < |j.seats|
    ensures Inv(ActBook(s, t)) == true
  {
    var s' := ActBook(s, t);
    SameHolders(s, s', t, s'.threads[t]);
    RecordersStep(s, s', t, s'.threads[t]);
    RowAppendThreads(s, t);
    RowAppendTables(s, t);
    RowAppendClaims(s, t);
  }

  /** What another thread relies on is not the seat. */
  lemma SeatWriteOther(s: State, s': State, th: Thread, x: Id, v: Seat)
    requires ThreadOk(s, th) && !Holds(th, SeatRow(x)) && s'.seats == s.seats[x := v]
    requires s'.rows == s.rows && s'.bookings == s.bookings
    ensures ThreadOk(s', th)
  {
    match th
    case Book(k) =>
      forall n | 0 <= n < Checked(k) ensures SeatOk(s', k, n) {
        assert SeatOk(s, k, n) && k.seats[n] in BookHeld(k);
      }
    case Cancel(k) =>
      if k.pc == CnFree {
        assert Take(k.seats, k.i + 1)[k.i] == k.seats[k.i];
      }
      forall n | 0 <= n < Freed(k) ensures SeatFree(s', k.seats[n]) {
        assert SeatFree(s, k.seats[n]);
        assert CancelHolds(k)[n] == k.seats[n] && k.seats[n] in CancelHolds(k);
      }
    case _ =>
  }

  lemma SeatWriteThreads(s: State, t: Tid, th: Thread, x: Id, v: Seat)
    requires Inv(s) && t in s.threads && x in s.seats && Holds(s.threads[t], SeatRow(x))
    requires ThreadOk(With(s, t, th).(seats := s.seats[x := v]), th)
    ensures ThreadsOk(With(s, t, th).(seats := s.seats[x := v]))
  {
    var s' := With(s, t, th).(seats := s.seats[x := v]);
    forall u | u in s'.threads ensures ThreadOk(s', s'.threads[u]) {
      if u != t {
        HeldByOne(s, t, u, SeatRow(x));
        SeatWriteOther(s, s', s.threads[u], x, v);
      }
    }
  }

  lemma SeatWriteInv(s: State, t: Tid, th: Thread, x: Id, v: Seat)
    requires Inv(s) && t in s.threads && x in s.seats && Holds(s.threads[t], SeatRow(x))
    requires SameHolds(s.threads[t], th) && Recorder(th) == Recorder(s.threads[t]) && Worker(th) == Worker(s.threads[t])
    requires ThreadOk(With(s, t, th).(seats := s.seats[x := v]), th)
    requires v.status == Booked || (Worker(th).Some? && Claims(s, Worker(th).value, x))
    ensures Inv(With(s, t, th).(seats := s.seats[x := v]))
  {
    var s' := With(s, t, th).(seats := s.seats[x := v]);
    SeatWriteThreads(s, t, th, x, v);
    RecordersStep(s, s', t, th);
    SameClaims(s, s');
    SameHolders(s, s', t, th);
    SameDomains(s, s');
    SeatWriteGuards(s, s', t, th, x);
  }

  lemma SeatWriteGuards(s: State, s': State, t: Tid, th: Thread, x: Id)
    requires LocksOk(s) && TablesOk(s) && ClaimsGuarded(s) && LocksOk(s') && TablesOk(s')
    requires t in s.threads && x in s.seats && Holds(s.threads[t], SeatRow(x)) && Worker(th) == Worker(s.threads[t])
    requires s'.threads == s.threads[t := th] && s'.locks == s.locks && s'.bookings == s.bookings && s'.rows == s.rows
    requires x in s'.seats && s'.seats == s.seats[x := s'.seats[x]]
    requires s'.seats[x].status == Booked || (Worker(th).Some? && forall b: Id :: Claims(s, b, x) ==> Worker(th) == Some(b))
    ensures ClaimsGuarded(s')
  {
    forall b, y | Claims(s', b, y) ensures Guarded(s', b, y) {
      assert Claims(s, b, y) && Guarded(s, b, y);
    }
  }

  lemma CancelMarkOther(s: State, s': State, th: Thread, b: Id)
    requires ThreadOk(s, th) && !Holds(th, BookingRow(b)) && b in s.bookings && s.bookings[b].status == Confirmed
    requires s'.rows == s.rows && s'.seats == s.seats && s'.bookings == s.bookings[b := s.bookings[b].(status := Cancelled)]
    ensures ThreadOk(s', th)
  {
    if !(th.Cancel? && th.c.id == b) {
      ThreadKept(s, s', th);
    }
  }

  lemma CancelMarkThreads(s: State, t: Tid)
    requires Inv(s) && t in s.threads && s.threads[t].Cancel? && s.threads[t].c.pc == CnMark
    ensures ThreadsOk(ActCancel(s, t))
  {
    var s', j := ActCancel(s, t), s.threads[t].c;
    assert ThreadOk(s, s.threads[t]) && Holds(s.threads[t], BookingRow(j.id));
    assert s'.threads == s.threads[t := Cancel(j.(pc := CnCommit))] && s'.rows == s.rows && s'.seats == s.seats;
    forall u | u in s'.threads ensures ThreadOk(s', s'.threads[u]) {
      if u != t {
        HeldByOne(s, t, u, BookingRow(j.id));
        CancelMarkOther(s, s', s.threads[u], j.id);
      }
    }
  }

  /** A cancellation marks its booking cancelled. */
  lemma CancelMarkInv(s: State, t: Tid)
    requires Inv(s) && t in s.threads && s.threads[t].Cancel? && s.threads[t].c.pc == CnMark
    ensures Inv(ActCancel(s, t)) == true
  {
    var s', j := ActCancel(s, t), s.threads[t].c;
    assert ThreadOk(s, s.threads[t]) && SameHolds(s.threads[t], s'.threads[t]);
    CancelMarkThreads(s, t);
    RecordersStep(s, s', t, s'.threads[t]);
    SameHolders(s, s', t, s'.threads[t]);
    SameDomains(s, s');
    assert forall b, x :: Claims(s', b, x) ==> Claims(s, b, x);
    forall b, x | Claims(s', b, x) ensures Guarded(s', b, x) {
      assert Claims(s, b, x) && Guarded(s, b, x);
    }
  }

  // ---------------------------------------------------------------------------
  // Sorting
  // ---------------------------------------------------------------------------

  ghost predicate NonDescending(s: seq<Id>) {
    forall i, j :: 0 <= i < j < |s| ==> s[i] <= s[j]
  }

  lemma {:induction false} InsertBag(x: Id, s: seq<Id>)
    ensures multiset(Insert(x, s)) == multiset(s) + multiset{x}
    decreases |s|
  {
    if s == [] || x <= s[0] {
      assert multiset([x] + s) == multiset([x]) + multiset(s);
    } else {
      InsertBag(x, s[1..]);
      assert multiset([s[0]] + Insert(x, s[1..])) == multiset([s[0]]) + multiset(Insert(x, s[1..]));
      assert s == [s[0]] + s[1..];
    }
  }

  lemma {:induction false} InsertSorted(x: Id, s: seq<Id>)
    requires NonDescending(s)
    ensures NonDescending(Insert(x, s)) && forall i :: 0 <= i < |Insert(x, s)| ==> Insert(x, s)[i] == x || Insert(x, s)[i] in s
    decreases |s|
  {
    if s != [] && x > s[0] {
      InsertSorted(x, s[1..]);
      var r := Insert(x, s[1..]);
      forall i | 0 <= i < |r| ensures s[0] <= r[i] {
        assert r[i] == x || r[i] in s[1..];
      }
    }
  }

  /** The exchange sort's result, whatever way it is computed: the same seats, in order. */
  lemma {:induction false} SortedSorts(s: seq<Id>)
    ensures NonDescending(Sorted(s)) && multiset(Sorted(s)) == multiset(s)
    decreases |s|
  {
    if s != [] {
      SortedSorts(s[1..]);
      InsertSorted(s[0], Sorted(s[1..]));
      InsertBag(s[0], Sorted(s[1..]));
      assert s == [s[0]] + s[1..];
    }
  }

  lemma {:induction false} DistinctCounts(s: seq<Id>)
    ensures Distinct(s) <==> forall x :: multiset(s)[x] <= 1
    decreases |s|
  {
    if s != [] {
      var rest := s[1..];
      DistinctCounts(rest);
      assert s == [s[0]] + rest;
      assert multiset(s) == multiset{s[0]} + multiset(rest);
      if Distinct(s) {
        assert forall i :: 0 <= i < |rest| ==> rest[i] == s[i + 1];
        assert s[0] !in rest;
      }
      if forall x :: multiset(s)[x] <= 1 {
        forall x ensures multiset(rest)[x] <= 1 {
          assert multiset(s)[x] <= 1;
        }
        assert multiset(s)[s[0]] <= 1 && s[0] !in rest;
        forall i, j | 0 <= i < j < |s| ensures s[i] != s[j] {
          assert s[j] == rest[j - 1];
          assert i > 0 ==> s[i] == rest[i - 1];
        }
      }
    }
  }

  lemma SortedAscends(s: seq<Id>)
    requires Distinct(s)
    ensures Ascending(Sorted(s)) && Distinct(Sorted(s)) && |Sorted(s)| == |s|
    ensures forall x :: x in Sorted(s) <==> x in s
  {
    var r := Sorted(s);
    SortedSorts(s);
    DistinctCounts(s);
    DistinctCounts(r);
    assert |multiset(r)| == |multiset(s)|;
    forall x: Id ensures x in r <==> x in s {
      assert x in r <==> x in multiset(r);
    }
  }

  // ---------------------------------------------------------------------------
  // Every step keeps the invariant
  // ---------------------------------------------------------------------------

  lemma TakeOne(s: seq<Id>, i: nat)
    requires i < |s|
    ensures forall x :: x in Take(s, i + 1) <==> x in Take(s, i) || x == s[i]
  {
    assert Take(s, i) == s[..i] && Take(s, i + 1) == s[..i + 1] == s[..i] + [s[i]];
  }

  lemma SeatRecords(seats: seq<Id>)
    ensures forall r: Record :: r in Seats(seats) <==> r.SeatRow? && r.id in seats
    ensures Distinct(seats) ==> Distinct(Seats(seats))
  {
    forall r: Record | r.SeatRow? && r.id in seats ensures r in Seats(seats) {
      var k :| 0 <= k < |seats| && seats[k] == r.id;
      assert Seats(seats)[k] == r;
    }
  }

  lemma BookAborts(s: State, t: Tid, result: Result)
    requires Inv(s) && t in s.threads && s.threads[t].Book? && s.threads[t].b.pc in {BkCheck, BkCommit}
    ensures Inv(With(s, t, Release(Seats(s.threads[t].b.seats), result)))
  {
    var j := s.threads[t].b;
    assert ThreadOk(s, s.threads[t]);
    SeatRecords(j.seats);
    if j.pc == BkCommit {
      AllMarked(s, j);
    }
    ThreadStep(s, t, Release(Seats(j.seats), result));
  }

  /** At commit every claimed seat is marked. */
  lemma AllMarked(s: State, j: BookJob)
    requires BookOk(s, j) && j.pc == BkCommit
    ensures forall x :: Claims(s, j.id, x) ==> x in s.seats && s.seats[x].status == Booked
  {
    forall x | Claims(s, j.id, x) ensures x in s.seats && s.seats[x].status == Booked {
      TakeAll(j.seats);
      var k :| 0 <= k < |j.seats| && j.seats[k] == x;
      assert SeatOk(s, j, k);
    }
  }

  lemma BookLockInv(s: State, t: Tid)
    requires Inv(s) && Enabled(s, t) && s.threads[t].Book? && s.threads[t].b.pc == BkLock
    ensures Inv(ActBook(s, t)) == true
  {
    var j := s.threads[t].b;
    if j.i < |j.seats| {
      BookNextLockInv(s, t);
    } else {
      assert ThreadOk(s, s.threads[t]);
      ThreadStep(s, t, Book(j.(pc := BkCheck, i := 0)));
    }
  }

  lemma BookNextLockInv(s: State, t: Tid)
    requires Inv(s) && Enabled(s, t) && s.threads[t].Book? && s.threads[t].b.pc == BkLock && s.threads[t].b.i < |s.threads[t].b.seats|
    ensures Inv(ActBook(s, t)) == true
  {
    var j := s.threads[t].b;
    assert ThreadOk(s, s.threads[t]);
    TakeOne(j.seats, j.i);
    AcquireStep(s, t, Book(j.(i := j.i + 1)), SeatRow(j.seats[j.i]));
  }

  lemma BookCheckInv(s: State, t: Tid)
    requires Inv(s) && Enabled(s, t) && s.threads[t].Book? && s.threads[t].b.pc == BkCheck
    ensures Inv(ActBook(s, t)) == true
  {
    var j := s.threads[t].b;
    if j.i >= |j.seats| {
      BookChecked(s, t);
    } else if j.seats[j.i] !in s.seats {
      BookAborts(s, t, NotFound);
    } else if s.seats[j.seats[j.i]].event != j.event {
      BookAborts(s, t, InvalidArg);
    } else if s.seats[j.seats[j.i]].status != Available {
      BookAborts(s, t, SeatUnavail);
    } else {
      BookSeatFree(s, t);
    }
  }

  lemma BookChecked(s: State, t: Tid)
    requires Inv(s) && t in s.threads && s.threads[t].Book? && s.threads[t].b.pc == BkCheck && s.threads[t].b.i >= |s.threads[t].b.seats|
    ensures Inv(With(s, t, Book(s.threads[t].b.(pc := BkInsert)))) == true
  {
    var j := s.threads[t].b;
    var j' := j.(pc := BkInsert);
    assert ThreadOk(s, s.threads[t]);
    assert forall k :: 0 <= k < |j.seats| ==> SeatOk(s, j, k) ==> SeatOk(s, j', k);
    ThreadStep(s, t, Book(j'));
  }

  lemma BookSeatFree(s: State, t: Tid)
    requires Inv(s) && t in s.threads && s.threads[t].Book? && s.threads[t].b.pc == BkCheck && s.threads[t].b.i < |s.threads[t].b.seats|
    requires var j := s.threads[t].b;
             j.seats[j.i] in s.seats && s.seats[j.seats[j.i]].event == j.event && s.seats[j.seats[j.i]].status == Available
    ensures Inv(With(s, t, Book(s.threads[t].b.(i := s.threads[t].b.i + 1)))) == true
  {
    var j := s.threads[t].b;
    var j' := j.(i := j.i + 1);
    assert ThreadOk(s, s.threads[t]);
    assert forall k :: 0 <= k < j.i ==> SeatOk(s, j, k) ==> SeatOk(s, j', k);
    assert SeatOk(s, j', j.i);
    ThreadStep(s, t, Book(j'));
  }

  lemma BookReadInv(s: State, t: Tid)
    requires Inv(s) && Enabled(s, t) && s.threads[t].Book? && s.threads[t].b.pc == BkRead
    ensures Inv(ActBook(s, t)) == true
  {
    var j, s' := s.threads[t].b, ActBook(s, t);
    assert ThreadOk(s, s.threads[t]) && SeatOk(s, j, j.i);
    assert forall k :: 0 <= k < |j.seats| ==> SeatOk(s, j, k) ==> SeatOk(s, s'.threads[t].b, k);
    ThreadStep(s, t, s'.threads[t]);
  }

  lemma BookMarkInv(s: State, t: Tid)
    requires Inv(s) && Enabled(s, t) && s.threads[t].Book? && s.threads[t].b.pc == BkMark
    ensures Inv(ActBook(s, t)) == true
  {
    var j := s.threads[t].b;
    BookMarked(s, t);
    MarkSeatShape(s, t);
    SeatWriteInv(s, t, Book(j.(pc := BkRow, i := j.i + 1)), j.seats[j.i], j.buf);
  }

  lemma MarkSeatShape(s: State, t: Tid)
    requires t in s.threads && s.threads[t].Book? && s.threads[t].b.pc == BkMark
    requires var j := s.threads[t].b; j.i < |j.seats| && j.seats[j.i] in s.seats
    ensures var j := s.threads[t].b;
            ActBook(s, t) == With(s, t, Book(j.(pc := BkRow, i := j.i + 1))).(seats := s.seats[j.seats[j.i] := j.buf])
  {
  }

  /** One seat more is marked. */
  lemma BookMarked(s: State, t: Tid)
    requires Inv(s) && t in s.threads && s.threads[t].Book? && s.threads[t].b.pc == BkMark
    ensures var j := s.threads[t].b; j.i < |j.seats|
    ensures var j := s.threads[t].b; var th, x := Book(j.(pc := BkRow, i := j.i + 1)), j.seats[j.i];
            && x in s.seats && Holds(s.threads[t], SeatRow(x)) && SameHolds(s.threads[t], th) && j.buf.status == Booked
            && Recorder(th) == Recorder(s.threads[t]) && Worker(th) == Worker(s.threads[t])
            && ThreadOk(With(s, t, th).(seats := s.seats[x := j.buf]), th) == true
  {
    var j := s.threads[t].b;
    assert ThreadOk(s, s.threads[t]) && SeatOk(s, j, j.i);
    var j', x := j.(pc := BkRow, i := j.i + 1), j.seats[j.i];
    var s' := With(s, t, Book(j')).(seats := s.seats[x := j.buf]);
    forall k | 0 <= k < |j.seats| ensures SeatOk(s', j', k) {
      assert SeatOk(s, j, k) && (k < j.i ==> j.seats[k] < x) && (k > j.i ==> j.seats[k] > x);
    }
  }

  lemma BookEarlyInv(s: State, t: Tid)
    requires Inv(s) && Enabled(s, t) && s.threads[t].Book? && s.threads[t].b.pc in {BkEvent, BkBegin}
    ensures Inv(ActBook(s, t)) == true
  {
    assert ThreadOk(s, s.threads[t]);
    SortedAscends(s.threads[t].b.seats);
    ThreadStep(s, t, ActBook(s, t).threads[t]);
  }

  lemma BookRowsDoneInv(s: State, t: Tid)
    requires Inv(s) && Enabled(s, t) && s.threads[t].Book?
    requires s.threads[t].b.pc == BkRow && s.threads[t].b.i >= |s.threads[t].b.seats|
    ensures Inv(ActBook(s, t)) == true
  {
    var j, s' := s.threads[t].b, ActBook(s, t);
    assert ThreadOk(s, s.threads[t]);
    assert forall k :: 0 <= k < |j.seats| ==> SeatOk(s, j, k) ==> SeatOk(s, s'.threads[t].b, k);
    ThreadStep(s, t, s'.threads[t]);
  }

  lemma BookInv(s: State, t: Tid)
    requires Inv(s) && Enabled(s, t) && s.threads[t].Book?
    ensures Inv(ActBook(s, t)) == true
  {
    match s.threads[t].b.pc
    case BkEvent => BookEarlyInv(s, t);
    case BkBegin => BookEarlyInv(s, t);
    case BkLock => BookLockInv(s, t);
    case BkCheck => BookCheckInv(s, t);
    case BkInsert => BookInsInv(s, t);
    case BkRow =>
      if s.threads[t].b.i < |s.threads[t].b.seats| {
        RowAppendInv(s, t);
      } else {
        BookRowsDoneInv(s, t);
      }
    case BkRead => BookReadInv(s, t);
    case BkMark => BookMarkInv(s, t);
    case BkCommit => BookAborts(s, t, Ok);
  }

  lemma CancelRecords(j: CancelJob, upTo: nat)
    requires upTo <= |j.seats| && Distinct(j.seats)
    ensures forall r: Record :: r in CancelHeld(j, upTo) <==> r == BookingRow(j.id) || (r.SeatRow? && r.id in j.seats[..upTo])
    ensures Distinct(CancelHeld(j, upTo))
  {
    SeatRecords(j.seats[..upTo]);
    var held := CancelHeld(j, upTo);
    assert held[0] == BookingRow(j.id) && held[1..] == Seats(j.seats[..upTo]);
    assert forall k :: 0 < k < |held| ==> held[k] == held[1..][k - 1];
    forall r: Record ensures r in held <==> r == held[0] || r in held[1..] {
      assert held == [held[0]] + held[1..];
    }
  }

  lemma CancelFindInv(s: State, t: Tid)
    requires Inv(s) && Enabled(s, t) && s.threads[t].Cancel? && s.threads[t].c.pc == CnFind
    ensures Inv(ActCancel(s, t)) == true
  {
    var j := s.threads[t].c;
    if j.id !in s.bookings {
      CancelGivesUp(s, t, NotFound);
    } else if s.bookings[j.id].user != j.user {
      CancelGivesUp(s, t, Auth);
    } else if s.bookings[j.id].status != Confirmed {
      CancelGivesUp(s, t, Generic);
    } else {
      CancelGoesOn(s, t);
    }
  }

  lemma CancelGivesUp(s: State, t: Tid, result: Result)
    requires Inv(s) && t in s.threads && s.threads[t].Cancel? && s.threads[t].c.pc == CnFind
    ensures Inv(With(s, t, Release(CancelHeld(s.threads[t].c, 0), result))) == true
  {
    var j := s.threads[t].c;
    CancelNone(j);
    ThreadStep(s, t, Release(CancelHeld(j, 0), result));
  }

  lemma CancelGoesOn(s: State, t: Tid)
    requires Inv(s) && t in s.threads && s.threads[t].Cancel? && s.threads[t].c.pc == CnFind
    requires var j := s.threads[t].c; j.id in s.bookings && s.bookings[j.id].user == j.user && s.bookings[j.id].status == Confirmed
    ensures var j := s.threads[t].c; Inv(With(s, t, Cancel(j.(pc := CnScan, found := s.bookings[j.id])))) == true
  {
    var j := s.threads[t].c;
    ThreadStep(s, t, Cancel(j.(pc := CnScan, found := s.bookings[j.id])));
  }

  lemma CancelNone(j: CancelJob)
    ensures CancelHeld(j, 0) == [BookingRow(j.id)]
  {
  }

  lemma CancelFreeInv(s: State, t: Tid)
    requires Inv(s) && Enabled(s, t) && s.threads[t].Cancel? && s.threads[t].c.pc == CnFree
    ensures Inv(ActCancel(s, t)) == true
  {
    var j := s.threads[t].c;
    CancelFreed(s, t);
    FreeShape(s, t);
    SeatWriteInv(s, t, Cancel(j.(pc := CnSeatLock, i := j.i + 1)), j.seats[j.i], j.buf);
  }

  lemma FreeShape(s: State, t: Tid)
    requires t in s.threads && s.threads[t].Cancel? && s.threads[t].c.pc == CnFree && s.threads[t].c.i < |s.threads[t].c.seats|
    ensures var j := s.threads[t].c;
            ActCancel(s, t) == With(s, t, Cancel(j.(pc := CnSeatLock, i := j.i + 1))).(seats := s.seats[j.seats[j.i] := j.buf])
  {
  }

  /** One seat more is free. */
  lemma CancelFreed(s: State, t: Tid)
    requires Inv(s) && t in s.threads && s.threads[t].Cancel? && s.threads[t].c.pc == CnFree
    ensures var j := s.threads[t].c; j.i < |j.seats|
    ensures var j := s.threads[t].c; var th, x := Cancel(j.(pc := CnSeatLock, i := j.i + 1)), j.seats[j.i];
            && x in s.seats && Holds(s.threads[t], SeatRow(x)) && SameHolds(s.threads[t], th) && Claims(s, j.id, x)
            && Recorder(th) == Recorder(s.threads[t]) && Worker(th) == Worker(s.threads[t]) == Some(j.id)
            && ThreadOk(With(s, t, th).(seats := s.seats[x := j.buf]), th) == true
  {
    var j := s.threads[t].c;
    assert ThreadOk(s, s.threads[t]);
    FreedOk(s, With(s, t, Cancel(j.(pc := CnSeatLock, i := j.i + 1))).(seats := s.seats[j.seats[j.i] := j.buf]), j);
    TakeOne(j.seats, j.i);
    assert Take(j.seats, j.i + 1)[j.i] == j.seats[j.i];
  }

  lemma FreedOk(s: State, s': State, j: CancelJob)
    requires CancelOk(s, j) && j.pc == CnFree && j.seats[j.i] in s.seats
    requires s'.seats == s.seats[j.seats[j.i] := j.buf] && s'.rows == s.rows && s'.bookings == s.bookings
    ensures ThreadOk(s', Cancel(j.(pc := CnSeatLock, i := j.i + 1))) == true
  {
  }

  lemma CancelScanInv(s: State, t: Tid)
    requires Inv(s) && Enabled(s, t) && s.threads[t].Cancel? && s.threads[t].c.pc == CnScan
    ensures Inv(ActCancel(s, t)) == true
  {
    var j, th := s.threads[t].c, ActCancel(s, t).threads[t];
    assert ThreadOk(s, s.threads[t]);
    var rows := RowsOf(s.rows, j.id);
    assert Ascending(rows) && Distinct(rows) && Take(rows, MAX_SEATS) == rows;
    SortedAscends(rows);
    assert forall k :: 0 <= k < |th.c.seats| ==> th.c.seats[k] in Sorted(rows);
    ThreadStep(s, t, th);
  }

  lemma CancelSeatLockInv(s: State, t: Tid)
    requires Inv(s) && Enabled(s, t) && s.threads[t].Cancel? && s.threads[t].c.pc == CnSeatLock
    ensures Inv(ActCancel(s, t)) == true
  {
    var j := s.threads[t].c;
    assert ThreadOk(s, s.threads[t]);
    if j.i < |j.seats| {
      TakeOne(j.seats, j.i);
      AcquireStep(s, t, Cancel(j.(pc := CnRead)), SeatRow(j.seats[j.i]));
    } else {
      ThreadStep(s, t, Cancel(j.(pc := CnMark)));
    }
  }

  lemma CancelCommitInv(s: State, t: Tid)
    requires Inv(s) && Enabled(s, t) && s.threads[t].Cancel? && s.threads[t].c.pc == CnCommit
    ensures Inv(ActCancel(s, t)) == true
  {
    var j := s.threads[t].c;
    assert ThreadOk(s, s.threads[t]);
    CancelRecords(j, |j.seats|);
    assert j.seats[..|j.seats|] == j.seats;
    ThreadStep(s, t, Release(CancelHeld(j, |j.seats|), Ok));
  }

  lemma CancelPlainInv(s: State, t: Tid)
    requires Inv(s) && Enabled(s, t) && s.threads[t].Cancel? && s.threads[t].c.pc in {CnBegin, CnRead}
    ensures Inv(ActCancel(s, t)) == true
  {
    var j := s.threads[t].c;
    if j.pc == CnBegin {
      ThreadStep(s, t, if |Active(s)| >= MAX_TXNS then Done(Generic) else Cancel(j.(pc := CnLock)));
    } else {
      CancelReadInv(s, t);
    }
  }

  lemma CancelReadInv(s: State, t: Tid)
    requires Inv(s) && t in s.threads && s.threads[t].Cancel? && s.threads[t].c.pc == CnRead
    ensures Inv(ActCancel(s, t)) == true
  {
    assert ThreadOk(s, s.threads[t]);
    ThreadStep(s, t, ActCancel(s, t).threads[t]);
  }

  lemma CancelInv(s: State, t: Tid)
    requires Inv(s) && Enabled(s, t) && s.threads[t].Cancel?
    ensures Inv(ActCancel(s, t)) == true
  {
    match s.threads[t].c.pc
    case CnBegin => CancelPlainInv(s, t);
    case CnLock => AcquireStep(s, t, Cancel(s.threads[t].c.(pc := CnFind)), BookingRow(s.threads[t].c.id));
    case CnFind => CancelFindInv(s, t);
    case CnScan => CancelScanInv(s, t);
    case CnSeatLock => CancelSeatLockInv(s, t);
    case CnRead => CancelPlainInv(s, t);
    case CnFree => CancelFreeInv(s, t);
    case CnMark => CancelMarkInv(s, t);
    case CnCommit => CancelCommitInv(s, t);
  }

  lemma SeatAddTables(s: State, s': State, v: Seat)
    requires TablesOk(s) && s'.seats == s.seats[s.nextSeat := v] && s'.nextSeat == s.nextSeat + 1
    requires s'.rows == s.rows && s'.bookings == s.bookings && s'.nextBooking == s.nextBooking
    ensures TablesOk(s')
  {
  }

  lemma SeatAddThreads(s: State, s': State, t: Tid, th: Thread, v: Seat)
    requires ThreadsOk(s) && TablesOk(s) && th.Create? && s'.threads == s.threads[t := th] && s'.seats == s.seats[s.nextSeat := v]
    requires s'.rows == s.rows && s'.bookings == s.bookings
    ensures ThreadsOk(s')
  {
    forall u | u in s'.threads ensures ThreadOk(s', s'.threads[u]) {
      ThreadKept(s, s', s'.threads[u]);
    }
  }

  /** A seat nobody has heard of yet. */
  lemma SeatAddInv(s: State, t: Tid, th: Thread, v: Seat)
    requires Inv(s) && t in s.threads && s.threads[t].Create? && th.Create?
    ensures Inv(With(s, t, th).(seats := s.seats[s.nextSeat := v], nextSeat := s.nextSeat + 1)) == true
  {
    var s' := With(s, t, th).(seats := s.seats[s.nextSeat := v], nextSeat := s.nextSeat + 1);
    SeatAddThreads(s, s', t, th, v);
    SeatAddTables(s, s', v);
    RecordersStep(s, s', t, th);
    SameHolders(s, s', t, th);
    SameClaims(s, s');
    GuardsFrame(s, s');
  }

  lemma CreateInv(s: State, t: Tid)
    requires Inv(s) && Enabled(s, t) && s.threads[t].Create?
    ensures Inv(ActCreate(s, t)) == true
  {
    var th := s.threads[t];
    if th.made < th.rows * th.cols {
      SeatAddInv(s, t, th.(made := th.made + 1), Seat(th.event, Available, 0));
      CreateShape(s, t);
    } else {
      ThreadStep(s, t, Done(Ok));
    }
  }

  lemma CreateShape(s: State, t: Tid)
    requires t in s.threads && s.threads[t].Create? && s.threads[t].made < s.threads[t].rows * s.threads[t].cols
    ensures var th := s.threads[t];
            ActCreate(s, t) == With(s, t, th.(made := th.made + 1)).(seats := s.seats[s.nextSeat := Seat(th.event, Available, 0)],
                                                                      nextSeat := s.nextSeat + 1)
  {
  }

  lemma ArriveLocks(s: State, s': State, t: Tid, th: Thread)
    requires LocksOk(s) && RecordersDiffer(s) && t !in s.threads
    requires s'.threads == s.threads[t := th] && s'.locks == s.locks
    requires Recorder(th).None? && forall r :: !Holds(th, r)
    ensures LocksOk(s') && RecordersDiffer(s')
  {
    forall r | r in s'.locks ensures s'.locks[r] in s'.threads && Holds(s'.threads[s'.locks[r]], r) {
      assert Holds(s.threads[s.locks[r]], r);
    }
  }

  /** A new thread holds nothing, so its arrival disturbs nobody. */
  lemma ArriveInv(s: State, t: Tid, q: Request)
    requires Inv(s) && t !in s.threads
    ensures Inv(Arrive(s, t, q))
  {
    var s', th := Arrive(s, t, q), Start(q, s);
    StartsIdle(s, q);
    ArriveShape(s, t, q);
    ThreadsStep(s, s', t, th);
    SameClaims(s, s');
    SameDomains(s, s');
    ArriveLocks(s, s', t, th);
    GuardsFrame(s, s');
  }

  lemma ArriveShape(s: State, t: Tid, q: Request)
    requires t !in s.threads
    ensures var s' := Arrive(s, t, q);
            && s'.threads == s.threads[t := Start(q, s)] && s'.locks == s.locks && s'.seats == s.seats && s'.bookings == s.bookings
            && s'.rows == s.rows && s'.nextSeat == s.nextSeat && s'.nextBooking == s.nextBooking
  {
  }

  lemma StartsIdle(s: State, q: Request)
    ensures var th := Start(q, s); ThreadOk(s, th) && Recorder(th).None? && Worker(th).None? && forall r :: !Holds(th, r)
  {
  }

  /** What the events are does not matter to bookings already on their way. */
  lemma EventInv(s: State, events: map<Id, bool>)
    requires Inv(s)
    ensures Inv(s.(events := events))
  {
    var s' := s.(events := events);
    forall u | u in s'.threads ensures ThreadOk(s', s'.threads[u]) {
      ThreadKept(s, s', s.threads[u]);
    }
    SameClaims(s, s');
    GuardsFrame(s, s');
  }

  /** Every move of every thread, and of the world around them, keeps the invariant. */
  lemma MoveInv(s: State, m: Move)
    requires Inv(s) && CanMove(s, m)
    ensures Inv(Moved(s, m))
  {
    match m
    case Arrives(t, q) => ArriveInv(s, t, q);
    case EventSet(e, active) => EventInv(s, s.events[e := active]);
    case EventGone(e) => EventInv(s, s.events - {e});
    case Acts(t) =>
      match s.threads[t]
      case Book(_) => BookInv(s, t);
      case Cancel(_) => CancelInv(s, t);
      case Create(_, _, _, _) => CreateInv(s, t);
      case Release(_, _) => ReleaseInv(s, t);
  }

  // ---------------------------------------------------------------------------
  // Runs
  // ---------------------------------------------------------------------------

  /** The moves `ms` can happen one after another, from `s` on. */
  ghost predicate Runs(s: State, ms: seq<Move>)
    decreases |ms|
  {
    ms != [] ==> CanMove(s, ms[0]) && Runs(Moved(s, ms[0]), ms[1..])
  }

  ghost function After(s: State, ms: seq<Move>): State
    requires Runs(s, ms)
    decreases |ms|
  {
    if ms == [] then s else After(Moved(s, ms[0]), ms[1..])
  }

  /** No run of book and cancel requests, interleaved in any way, books a seat twice. */
  lemma {:induction false} RunsNeverDoubleBook(s: State, ms: seq<Move>)
    requires Inv(s) && Runs(s, ms)
    ensures Inv(After(s, ms)) && NoDoubleBooking(After(s, ms))
    decreases |ms|
  {
    if ms != [] {
      MoveInv(s, ms[0]);
      RunsNeverDoubleBook(Moved(s, ms[0]), ms[1..]);
    }
  }
}
