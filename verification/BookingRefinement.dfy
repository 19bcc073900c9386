// Atomic bookings: as long as every cancellation finds all the junction rows of its booking, every interleaving of book
// and cancel threads acts like a run in which each of them happens in one all-or-nothing step.
module BookingRefinement {
  import opened BookingModel
  import opened BookingSafety
  import opened Common

  // ---------------------------------------------------------------------------
  // The atomic system
  // ---------------------------------------------------------------------------

  datatype Entry = Entry(user: Id, event: Id, seats: seq<Id>, seatCount: nat, status: BookingStatus)

  datatype Ledger = Ledger(seats: map<Id, Seat>, bookings: map<Id, Entry>)

  datatype Effect =
    | Nothing
    | Books(id: Id, user: Id, event: Id, seats: seq<Id>)
    | Cancels(id: Id, user: Id)
    | Adds(seat: Id, event: Id)

  ghost predicate Allowed(a: Ledger, e: Effect) {
    match e
    case Nothing => true
    case Books(id, user, event, seats) =>
      && id !in a.bookings && 1 <= |seats| <= MAX_SEATS && Ascending(seats)
      && forall x :: x in seats ==> x in a.seats && a.seats[x].event == event && a.seats[x].status == Available
    case Cancels(id, user) =>
      id in a.bookings && a.bookings[id].user == user && a.bookings[id].status == Confirmed
    case Adds(x, _) => x !in a.seats
  }

  /** Sets every listed seat to the same status and holder. */
  ghost function SetSeats(m: map<Id, Seat>, seats: seq<Id>, status: SeatStatus, holder: Id): map<Id, Seat> {
    map x | x in m :: if x in seats then m[x].(status := status, bookedBy := holder) else m[x]
  }

  ghost function Apply(a: Ledger, e: Effect): Ledger
    requires Allowed(a, e)
  {
    match e
    case Nothing => a
    case Books(id, user, event, seats) =>
      Ledger(SetSeats(a.seats, seats, Booked, user), a.bookings[id := Entry(user, event, seats, |seats|, Confirmed)])
    case Cancels(id, user) =>
      Ledger(SetSeats(a.seats, a.bookings[id].seats, Available, 0),
             a.bookings[id := a.bookings[id].(status := Cancelled)])
    case Adds(x, event) => a.(seats := a.seats[x := Seat(event, Available, 0)])
  }

  ghost predicate Claimed(a: Ledger, b: Id, x: Id) {
    b in a.bookings && a.bookings[b].status == Confirmed && x in a.bookings[b].seats
  }

  ghost predicate EntryOk(a: Ledger, b: Id)
    requires b in a.bookings
  {
    && 1 <= |a.bookings[b].seats| == a.bookings[b].seatCount <= MAX_SEATS && Ascending(a.bookings[b].seats)
    && forall x :: x in a.bookings[b].seats ==> x in a.seats && a.seats[x].event == a.bookings[b].event
  }

  /** A seat is booked exactly when one confirmed booking claims it, and then by that booking's user. */
  ghost predicate LedgerOk(a: Ledger) {
    && (forall b :: b in a.bookings ==> EntryOk(a, b))
    && (forall b, x :: Claimed(a, b, x) ==> x in a.seats && a.seats[x].status == Booked && a.seats[x].bookedBy == a.bookings[b].user)
    && (forall b, c, x :: b != c && Claimed(a, b, x) ==> !Claimed(a, c, x))
    && (forall x :: x in a.seats && a.seats[x].status == Booked ==> exists b :: Claimed(a, b, x))
    && (forall x :: x in a.seats && a.seats[x].status != Booked ==> a.seats[x].status == Available && a.seats[x].bookedBy == 0)
  }

  lemma BooksKeeps(a: Ledger, id: Id, user: Id, event: Id, seats: seq<Id>)
    requires LedgerOk(a) && Allowed(a, Books(id, user, event, seats))
    ensures LedgerOk(Apply(a, Books(id, user, event, seats)))
  {
    var a' := Apply(a, Books(id, user, event, seats));
    forall b | b in a'.bookings ensures EntryOk(a', b) {
      assert b != id ==> EntryOk(a, b);
    }
    forall b, x | Claimed(a', b, x) ensures Claimed(a, b, x) || (b == id && x in seats) {}
    forall x | x in a'.seats && a'.seats[x].status == Booked ensures exists b :: Claimed(a', b, x) {
      if x in seats {
        assert Claimed(a', id, x);
      } else {
        var b :| Claimed(a, b, x);
        assert Claimed(a', b, x);
      }
    }
  }

  lemma CancelsKeeps(a: Ledger, id: Id, user: Id)
    requires LedgerOk(a) && Allowed(a, Cancels(id, user))
    ensures LedgerOk(Apply(a, Cancels(id, user)))
  {
    var a' := Apply(a, Cancels(id, user));
    forall b | b in a'.bookings ensures EntryOk(a', b) {
      assert EntryOk(a, b);
    }
    forall b, x | Claimed(a', b, x) ensures Claimed(a, b, x) && b != id && x !in a.bookings[id].seats {
      assert Claimed(a, b, x);
      assert x in a.bookings[id].seats ==> Claimed(a, id, x);
    }
    forall x | x in a'.seats && a'.seats[x].status == Booked ensures exists b :: Claimed(a', b, x) {
      var b :| Claimed(a, b, x);
      assert Claimed(a', b, x);
    }
  }

  /** Every atomic step keeps the books balanced. */
  lemma EffectKeeps(a: Ledger, e: Effect)
    requires LedgerOk(a) && Allowed(a, e)
    ensures LedgerOk(Apply(a, e))
  {
    match e
    case Nothing =>
    case Books(id, user, event, seats) => BooksKeeps(a, id, user, event, seats);
    case Cancels(id, user) => CancelsKeeps(a, id, user);
    case Adds(x, event) =>
      var a' := Apply(a, e);
      forall b | b in a'.bookings ensures EntryOk(a', b) {
        assert EntryOk(a, b);
      }
      forall b, y ensures Claimed(a', b, y) == Claimed(a, b, y) {}
  }

  // ---------------------------------------------------------------------------
  // What a concrete state stands for
  // ---------------------------------------------------------------------------

  /** A seat as it was before the unfinished transaction `th` overwrote it. */
  ghost function Undo(th: Thread, x: Id, v: Seat): Seat {
    match th
    case Book(j) => if x in Take(j.seats, Marked(j)) then v.(status := Available, bookedBy := 0) else v
    case Cancel(j) => if x in Take(j.seats, Freed(j)) then v.(status := Booked, bookedBy := j.found.user) else v
    case _ => v
  }

  ghost function SeatView(s: State, x: Id): Seat
    requires x in s.seats && LocksOk(s)
  {
    if SeatRow(x) in s.locks then Undo(s.threads[s.locks[SeatRow(x)]], x, s.seats[x]) else s.seats[x]
  }

  ghost predicate InFlight(s: State, b: Id) {
    exists t :: t in s.threads && Recorder(s.threads[t]) == Some(b)
  }

  ghost function EntryView(s: State, b: Id): Entry
    requires b in s.bookings
  {
    Entry(s.bookings[b].user, s.bookings[b].event, RowsOf(s.rows, b), s.bookings[b].seatCount, s.bookings[b].status)
  }

  ghost function View(s: State): Ledger
    requires LocksOk(s)
  {
    Ledger(map x | x in s.seats :: SeatView(s, x), map b | b in s.bookings && !InFlight(s, b) :: EntryView(s, b))
  }

  /** The atomic step a move counts as. */
  ghost function EffectOf(s: State, m: Move): Effect
    requires CanMove(s, m)
  {
    if !m.Acts? then Nothing else
      match s.threads[m.t]
      case Book(j) => if j.pc == BkCommit then Books(j.id, j.user, j.event, j.seats) else Nothing
      case Cancel(j) => if j.pc == CnMark then Cancels(j.id, j.user) else Nothing
      case Create(event, rows, cols, made) => if made < rows * cols then Adds(s.nextSeat, event) else Nothing
      case _ => Nothing
  }

  // ---------------------------------------------------------------------------
  // The invariant of runs whose cancellations find all rows
  // ---------------------------------------------------------------------------

  /** All the junction rows of booking `b` are there. */
  ghost predicate AllRows(s: State, b: Id) {
    b in s.bookings && |RowsOf(s.rows, b)| == s.bookings[b].seatCount
  }

  /** A cancellation that scans for its booking's rows finds as many as the booking counts. */
  ghost predicate SeesAllRows(s: State, m: Move) {
    m.Acts? && m.t in s.threads && s.threads[m.t].Cancel? && s.threads[m.t].c.pc == CnScan ==>
      AllRows(s, s.threads[m.t].c.id)
  }

  /** A cancellation that waits for its first seat lock: its booking may still be in flight then, but no later. */
  ghost predicate AtFirstSeat(j: CancelJob) {
    j.pc == CnSeatLock && j.i == 0
  }

  ghost predicate Faithful(s: State, th: Thread) {
    match th
    case Book(j) => Recorder(th).Some? ==> j.id in s.bookings && s.bookings[j.id].status == Confirmed
    case Cancel(j) =>
      Worker(th).Some? ==>
        && (forall x :: x in RowsOf(s.rows, j.id) ==> x in j.seats) && AllRows(s, j.id) && j.seats != []
        && (InFlight(s, j.id) ==> AtFirstSeat(j))
    case _ => true
  }

  ghost predicate AllFaithful(s: State) {
    forall t {:trigger s.threads[t]} :: t in s.threads ==> Faithful(s, s.threads[t])
  }

  ghost predicate Strong(s: State) {
    Inv(s) && AllFaithful(s) && LedgerOk(View(s))
  }

  // ---------------------------------------------------------------------------
  // Steps that change nothing in the atomic view
  // ---------------------------------------------------------------------------

  lemma ViewSame(s: State, s': State)
    requires LocksOk(s) && LocksOk(s')
    requires forall x :: x in s.seats <==> x in s'.seats
    requires forall x :: x in s.seats ==> SeatView(s', x) == SeatView(s, x)
    requires forall b :: b in s.bookings && !InFlight(s, b) <==> b in s'.bookings && !InFlight(s', b)
    requires forall b :: b in s.bookings && !InFlight(s, b) ==> EntryView(s', b) == EntryView(s, b)
    ensures View(s') == View(s)
  {
  }

  lemma SameFlight(s: State, s': State, t: Tid, th: Thread)
    requires s'.threads == s.threads[t := th]
    requires if t in s.threads then Recorder(th) == Recorder(s.threads[t]) else Recorder(th).None?
    ensures forall b :: InFlight(s', b) <==> InFlight(s, b)
  {
    forall b: Id ensures InFlight(s', b) <==> InFlight(s, b) {
      if InFlight(s, b) {
        var u :| u in s.threads && Recorder(s.threads[u]) == Some(b);
        assert u in s'.threads && Recorder(s'.threads[u]) == Some(b);
      }
      if InFlight(s', b) {
        var u :| u in s'.threads && Recorder(s'.threads[u]) == Some(b);
        assert u in s.threads && Recorder(s.threads[u]) == Some(b);
      }
    }
  }

  lemma FaithfulSame(s: State, s': State, t: Tid, th: Thread)
    requires AllFaithful(s) && s'.threads == s.threads[t := th] && Faithful(s, th)
    requires s'.bookings == s.bookings && s'.rows == s.rows
    requires forall b :: InFlight(s', b) <==> InFlight(s, b)
    ensures AllFaithful(s')
  {
    forall u | u in s'.threads ensures Faithful(s', s'.threads[u]) {
      var tu := s'.threads[u];
      assert Faithful(s, tu);
    }
  }

  /** A step the atomic view does not notice. */
  ghost predicate Stutters(s: State, s': State) {
    Strong(s) && Strong(s') && View(s') == View(s)
  }

  /** A step that touches no table and does not disturb what overwritten seats looked like before. */
  lemma Silent(s: State, s': State, t: Tid, th: Thread)
    requires Strong(s) && Inv(s') && s'.threads == s.threads[t := th] && Faithful(s, th)
    requires s'.seats == s.seats && s'.bookings == s.bookings && s'.rows == s.rows
    requires if t in s.threads then Recorder(th) == Recorder(s.threads[t]) else Recorder(th).None?
    requires forall x :: x in s.seats ==> SeatView(s', x) == SeatView(s, x)
    ensures Stutters(s, s') == true
  {
    SameFlight(s, s', t, th);
    FaithfulSame(s, s', t, th);
    forall b | b in s.bookings ensures EntryView(s', b) == EntryView(s, b) {}
    ViewSame(s, s');
  }

  /** Steps that change only the thread, leaving its undo information alone. */
  lemma SilentLocal(s: State, t: Tid, th: Thread)
    requires Strong(s) && t in s.threads && Inv(With(s, t, th)) && Faithful(s, th)
    requires Recorder(th) == Recorder(s.threads[t])
    requires forall x, v :: Undo(th, x, v) == Undo(s.threads[t], x, v)
    ensures Stutters(s, With(s, t, th)) == true
  {
    var s' := With(s, t, th);
    forall x | x in s.seats ensures SeatView(s', x) == SeatView(s, x) {}
    Silent(s, s', t, th);
  }

  /** A thread that has overwritten no seat. */
  ghost predicate Untouched(th: Thread) {
    match th
    case Book(j) => Marked(j) == 0
    case Cancel(j) => Freed(j) == 0
    case _ => true
  }

  lemma UndoesNothing(th: Thread)
    requires Untouched(th)
    ensures forall x, v :: Undo(th, x, v) == v
  {
  }

  /** Steps of a thread that has overwritten nothing and does not begin to. */
  lemma SilentPlain(s: State, t: Tid, th: Thread)
    requires Strong(s) && t in s.threads && Inv(With(s, t, th)) && Faithful(s, th)
    requires Recorder(th) == Recorder(s.threads[t]) && Untouched(th) && Untouched(s.threads[t])
    ensures Stutters(s, With(s, t, th)) == true
  {
    UndoesNothing(th);
    UndoesNothing(s.threads[t]);
    SilentLocal(s, t, th);
  }

  /** Taking a lock on a seat the thread has not overwritten yet. */
  lemma SilentAcquire(s: State, t: Tid, th: Thread, r: Record)
    requires Strong(s) && t in s.threads && Free(s, t, r) && Inv(Acquire(With(s, t, th), t, r)) && Faithful(s, th)
    requires Recorder(th) == Recorder(s.threads[t])
    requires forall x, v :: Undo(th, x, v) == Undo(s.threads[t], x, v)
    requires r.SeatRow? ==> forall v :: Undo(th, r.id, v) == v
    ensures Stutters(s, Acquire(With(s, t, th), t, r)) == true
  {
    var s' := Acquire(With(s, t, th), t, r);
    forall x | x in s.seats ensures SeatView(s', x) == SeatView(s, x) {}
    Silent(s, s', t, th);
  }

  lemma SilentPlainAcquire(s: State, t: Tid, th: Thread, r: Record)
    requires Strong(s) && t in s.threads && Free(s, t, r) && Inv(Acquire(With(s, t, th), t, r)) && Faithful(s, th)
    requires Recorder(th) == Recorder(s.threads[t]) && Untouched(th) && Untouched(s.threads[t])
    ensures Stutters(s, Acquire(With(s, t, th), t, r)) == true
  {
    UndoesNothing(th);
    UndoesNothing(s.threads[t]);
    SilentAcquire(s, t, th, r);
  }

  lemma SilentRelease(s: State, t: Tid)
    requires Strong(s) && Enabled(s, t) && s.threads[t].Release?
    ensures Stutters(s, ActRelease(s, t)) == true
  {
    var s' := ActRelease(s, t);
    var held := s.threads[t].held;
    ReleaseInv(s, t);
    if held != [] {
      assert held[0] in held && Holds(s.threads[t], held[0]);
    }
    ReleaseView(s, t);
    Silent(s, s', t, s'.threads[t]);
  }

  lemma ReleaseView(s: State, t: Tid)
    requires LocksOk(s) && Enabled(s, t) && s.threads[t].Release? && LocksOk(ActRelease(s, t))
    requires s.threads[t].held != [] ==> Holds(s.threads[t], s.threads[t].held[0])
    ensures forall x :: x in s.seats ==> SeatView(ActRelease(s, t), x) == SeatView(s, x)
  {
  }

  lemma SilentRead(s: State, t: Tid)
    requires Strong(s) && Enabled(s, t) && s.threads[t].Book? && s.threads[t].b.pc == BkRead
    ensures Stutters(s, ActBook(s, t)) == true
  {
    var j, th := s.threads[t].b, ActBook(s, t).threads[t];
    assert ThreadOk(s, s.threads[t]) && Faithful(s, s.threads[t]) && SeatOk(s, j, j.i);
    BookInv(s, t);
    SilentLocal(s, t, th);
  }

  lemma SilentBook(s: State, t: Tid)
    requires Strong(s) && Enabled(s, t) && s.threads[t].Book?
    requires s.threads[t].b.pc in {BkEvent, BkBegin, BkCheck, BkRead}
    ensures Stutters(s, ActBook(s, t)) == true
  {
    match s.threads[t].b.pc
    case BkRead => SilentRead(s, t);
    case BkCheck => SilentCheck(s, t);
    case _ => SilentBookEarly(s, t);
  }

  lemma SilentBookEarly(s: State, t: Tid)
    requires Strong(s) && Enabled(s, t) && s.threads[t].Book? && s.threads[t].b.pc in {BkEvent, BkBegin}
    ensures Stutters(s, ActBook(s, t)) == true
  {
    var th := ActBook(s, t).threads[t];
    BookInv(s, t);
    EarlyShape(s, t);
    SilentPlain(s, t, th);
  }

  lemma EarlyShape(s: State, t: Tid)
    requires t in s.threads && s.threads[t].Book? && s.threads[t].b.pc in {BkEvent, BkBegin}
    ensures t in ActBook(s, t).threads
    ensures var th := ActBook(s, t).threads[t];
            ActBook(s, t) == With(s, t, th) && Recorder(th).None? && Untouched(th) && (th.Done? || th.Book?)
  {
  }

  lemma SilentCheck(s: State, t: Tid)
    requires Strong(s) && Enabled(s, t) && s.threads[t].Book? && s.threads[t].b.pc == BkCheck
    ensures Stutters(s, ActBook(s, t)) == true
  {
    var j := s.threads[t].b;
    BookInv(s, t);
    if j.i >= |j.seats| {
      SilentPlain(s, t, Book(j.(pc := BkInsert)));
    } else if j.seats[j.i] !in s.seats {
      SilentPlain(s, t, Release(Seats(j.seats), NotFound));
    } else if s.seats[j.seats[j.i]].event != j.event {
      SilentPlain(s, t, Release(Seats(j.seats), InvalidArg));
    } else if s.seats[j.seats[j.i]].status != Available {
      SilentPlain(s, t, Release(Seats(j.seats), SeatUnavail));
    } else {
      SilentPlain(s, t, Book(j.(i := j.i + 1)));
    }
  }

  lemma SilentBookLock(s: State, t: Tid)
    requires Strong(s) && Enabled(s, t) && s.threads[t].Book? && s.threads[t].b.pc == BkLock
    ensures Stutters(s, ActBook(s, t)) == true
  {
    var j := s.threads[t].b;
    BookInv(s, t);
    if j.i < |j.seats| {
      SilentAcquire(s, t, Book(j.(i := j.i + 1)), SeatRow(j.seats[j.i]));
    } else {
      SilentLocal(s, t, Book(j.(pc := BkCheck, i := 0)));
    }
  }

  lemma SilentRowsDone(s: State, t: Tid)
    requires Strong(s) && Enabled(s, t) && s.threads[t].Book?
    requires s.threads[t].b.pc == BkRow && s.threads[t].b.i >= |s.threads[t].b.seats|
    ensures Stutters(s, ActBook(s, t)) == true
  {
    var j := s.threads[t].b;
    assert ThreadOk(s, s.threads[t]) && Faithful(s, s.threads[t]);
    BookInv(s, t);
    SilentLocal(s, t, Book(j.(pc := BkCommit)));
  }

  lemma SilentCancelCommit(s: State, t: Tid)
    requires Strong(s) && Enabled(s, t) && s.threads[t].Cancel? && s.threads[t].c.pc == CnCommit
    ensures Stutters(s, ActCancel(s, t)) == true
  {
    var j := s.threads[t].c;
    CancelInv(s, t);
    SilentLocal(s, t, Release(CancelHeld(j, |j.seats|), Ok));
  }

  lemma SilentCancelRead(s: State, t: Tid)
    requires Strong(s) && Enabled(s, t) && s.threads[t].Cancel? && s.threads[t].c.pc == CnRead
    ensures Stutters(s, ActCancel(s, t)) == true
  {
    var j, th := s.threads[t].c, ActCancel(s, t).threads[t];
    assert ThreadOk(s, s.threads[t]) && Faithful(s, s.threads[t]);
    CancelInv(s, t);
    assert j.seats[j.i] in RowsOf(s.rows, j.id);
    SilentLocal(s, t, th);
  }

  lemma SilentCancelBegin(s: State, t: Tid)
    requires Strong(s) && Enabled(s, t) && s.threads[t].Cancel? && s.threads[t].c.pc == CnBegin
    ensures Stutters(s, ActCancel(s, t)) == true
  {
    CancelInv(s, t);
    SilentPlain(s, t, if |Active(s)| >= MAX_TXNS then Done(Generic) else Cancel(s.threads[t].c.(pc := CnLock)));
  }

  lemma SilentFind(s: State, t: Tid)
    requires Strong(s) && Enabled(s, t) && s.threads[t].Cancel? && s.threads[t].c.pc == CnFind
    ensures Stutters(s, ActCancel(s, t)) == true
  {
    var j := s.threads[t].c;
    CancelInv(s, t);
    if j.id !in s.bookings {
      SilentPlain(s, t, Release(CancelHeld(j, 0), NotFound));
    } else if s.bookings[j.id].user != j.user {
      SilentPlain(s, t, Release(CancelHeld(j, 0), Auth));
    } else if s.bookings[j.id].status != Confirmed {
      SilentPlain(s, t, Release(CancelHeld(j, 0), Generic));
    } else {
      SilentPlain(s, t, Cancel(j.(pc := CnScan, found := s.bookings[j.id])));
    }
  }

  lemma SilentCancel(s: State, t: Tid)
    requires Strong(s) && Enabled(s, t) && s.threads[t].Cancel?
    requires s.threads[t].c.pc in {CnBegin, CnFind, CnRead, CnCommit}
    ensures Stutters(s, ActCancel(s, t)) == true
  {
    match s.threads[t].c.pc
    case CnRead => SilentCancelRead(s, t);
    case CnCommit => SilentCancelCommit(s, t);
    case CnFind => SilentFind(s, t);
    case _ => SilentCancelBegin(s, t);
  }

  /** No booking counts zero seats. */
  lemma CountsSeats(s: State, b: Id)
    requires Strong(s) && b in s.bookings
    ensures s.bookings[b].seatCount >= 1
  {
    if InFlight(s, b) {
      var t :| t in s.threads && Recorder(s.threads[t]) == Some(b);
      assert ThreadOk(s, s.threads[t]);
    } else {
      assert EntryOk(View(s), b);
    }
  }

  lemma SilentCancelScan(s: State, t: Tid)
    requires Strong(s) && Enabled(s, t) && s.threads[t].Cancel? && s.threads[t].c.pc == CnScan && SeesAllRows(s, Acts(t))
    ensures Stutters(s, ActCancel(s, t)) == true
  {
    var j, th := s.threads[t].c, ActCancel(s, t).threads[t];
    assert ThreadOk(s, s.threads[t]);
    CancelInv(s, t);
    CountsSeats(s, j.id);
    var rows := RowsOf(s.rows, j.id);
    assert Ascending(rows) && Distinct(rows) && Take(rows, MAX_SEATS) == rows;
    SortedAscends(rows);
    SilentLocal(s, t, th);
  }

  /** Whoever can lock a row's seat finds the booking committed: while it is in flight, its own thread has the lock. */
  lemma FreeMeansCommitted(s: State, t: Tid, b: Id, x: Id)
    requires Inv(s) && t in s.threads && Recorder(s.threads[t]) != Some(b) && x in RowsOf(s.rows, b) && Free(s, t, SeatRow(x))
    ensures !InFlight(s, b)
  {
    if InFlight(s, b) {
      var u :| u in s.threads && Recorder(s.threads[u]) == Some(b);
      assert ThreadOk(s, s.threads[u]) && x in s.threads[u].b.seats;
      assert Holds(s.threads[u], SeatRow(x));
    }
  }

  lemma SilentSeatLock(s: State, t: Tid)
    requires Strong(s) && Enabled(s, t) && s.threads[t].Cancel? && s.threads[t].c.pc == CnSeatLock
    requires s.threads[t].c.i < |s.threads[t].c.seats|
    ensures Stutters(s, ActCancel(s, t)) == true
  {
    var j := s.threads[t].c;
    assert ThreadOk(s, s.threads[t]) && Faithful(s, s.threads[t]);
    CancelInv(s, t);
    assert j.seats[j.i] !in Take(j.seats, j.i) && j.seats[j.i] in RowsOf(s.rows, j.id);
    FreeMeansCommitted(s, t, j.id, j.seats[j.i]);
    SilentAcquire(s, t, Cancel(j.(pc := CnRead)), SeatRow(j.seats[j.i]));
  }

  lemma SilentSeatsDone(s: State, t: Tid)
    requires Strong(s) && Enabled(s, t) && s.threads[t].Cancel? && s.threads[t].c.pc == CnSeatLock
    requires s.threads[t].c.i >= |s.threads[t].c.seats|
    ensures Stutters(s, ActCancel(s, t)) == true
  {
    var j := s.threads[t].c;
    assert ThreadOk(s, s.threads[t]) && Faithful(s, s.threads[t]);
    CancelInv(s, t);
    assert Take(j.seats, j.i) == Take(j.seats, |j.seats|);
    SilentLocal(s, t, Cancel(j.(pc := CnMark)));
  }

  lemma SilentRowLock(s: State, t: Tid)
    requires Strong(s) && Enabled(s, t) && s.threads[t].Cancel? && s.threads[t].c.pc == CnLock
    ensures Stutters(s, ActCancel(s, t)) == true
  {
    var j := s.threads[t].c;
    var th := Cancel(j.(pc := CnFind));
    CancelInv(s, t);
    RowLockShape(s, t);
    SilentPlainAcquire(s, t, th, BookingRow(j.id));
  }

  lemma RowLockShape(s: State, t: Tid)
    requires t in s.threads && s.threads[t].Cancel? && s.threads[t].c.pc == CnLock
    ensures var j := s.threads[t].c; ActCancel(s, t) == Acquire(With(s, t, Cancel(j.(pc := CnFind))), t, BookingRow(j.id))
  {
  }

  lemma SilentCancelLock(s: State, t: Tid)
    requires Strong(s) && Enabled(s, t) && s.threads[t].Cancel? && s.threads[t].c.pc in {CnLock, CnSeatLock}
    ensures Stutters(s, ActCancel(s, t)) == true
  {
    var j := s.threads[t].c;
    if j.pc == CnLock {
      SilentRowLock(s, t);
    } else if j.i < |j.seats| {
      SilentSeatLock(s, t);
    } else {
      SilentSeatsDone(s, t);
    }
  }

  /** A transaction writes a seat it has locked, and the seat still looks as it did before the transaction. */
  lemma SilentWrite(s: State, t: Tid, th: Thread, x: Id, v: Seat)
    requires Strong(s) && t in s.threads && x in s.seats && Holds(s.threads[t], SeatRow(x))
    requires Inv(With(s, t, th).(seats := s.seats[x := v])) && Faithful(s, th)
    requires Recorder(th) == Recorder(s.threads[t])
    requires forall y, w :: y != x ==> Undo(th, y, w) == Undo(s.threads[t], y, w)
    requires Undo(th, x, v) == Undo(s.threads[t], x, s.seats[x])
    ensures Stutters(s, With(s, t, th).(seats := s.seats[x := v])) == true
  {
    var s' := With(s, t, th).(seats := s.seats[x := v]);
    SameFlight(s, s', t, th);
    FaithfulSame(s, s', t, th);
    WriteView(s, t, th, x, v);
    forall b | b in s.bookings ensures EntryView(s', b) == EntryView(s, b) {}
    ViewSame(s, s');
  }

  lemma WriteView(s: State, t: Tid, th: Thread, x: Id, v: Seat)
    requires LocksOk(s) && t in s.threads && x in s.seats && Holds(s.threads[t], SeatRow(x))
    requires LocksOk(With(s, t, th).(seats := s.seats[x := v]))
    requires forall y, w :: y != x ==> Undo(th, y, w) == Undo(s.threads[t], y, w)
    requires Undo(th, x, v) == Undo(s.threads[t], x, s.seats[x])
    ensures var s' := With(s, t, th).(seats := s.seats[x := v]);
            forall y :: y in s.seats ==> SeatView(s', y) == SeatView(s, y)
  {
    assert s.locks[SeatRow(x)] == t;
  }

  lemma ViewOfHeld(s: State, t: Tid, x: Id)
    requires Strong(s) && t in s.threads && x in s.seats && Holds(s.threads[t], SeatRow(x))
    ensures x in View(s).seats && View(s).seats[x] == Undo(s.threads[t], x, s.seats[x])
  {
  }

  lemma SilentMark(s: State, t: Tid)
    requires Strong(s) && Enabled(s, t) && s.threads[t].Book? && s.threads[t].b.pc == BkMark
    ensures Stutters(s, ActBook(s, t)) == true
  {
    var j, th := s.threads[t].b, ActBook(s, t).threads[t];
    var x := j.seats[j.i];
    assert ThreadOk(s, s.threads[t]) && Faithful(s, s.threads[t]) && SeatOk(s, j, j.i);
    BookInv(s, t);
    TakeOne(j.seats, j.i);
    ViewOfHeld(s, t, x);
    assert x !in Take(j.seats, j.i);
    SilentWrite(s, t, th, x, j.buf);
  }

  /** A seat about to be freed is booked for the user of the booking being cancelled. */
  lemma FreesItsOwn(s: State, t: Tid)
    requires Strong(s) && t in s.threads && s.threads[t].Cancel? && s.threads[t].c.pc == CnFree
    ensures var j := s.threads[t].c;
            && j.i < |j.seats| && j.seats[j.i] in s.seats && j.seats[j.i] !in Take(j.seats, j.i)
            && s.seats[j.seats[j.i]].status == Booked && s.seats[j.seats[j.i]].bookedBy == j.found.user
            && Holds(s.threads[t], SeatRow(j.seats[j.i]))
  {
    var j := s.threads[t].c;
    assert ThreadOk(s, s.threads[t]) && Faithful(s, s.threads[t]);
    TakeOne(j.seats, j.i);
    var x := j.seats[j.i];
    assert x !in Take(j.seats, j.i);
    assert Claimed(View(s), j.id, x);
    ViewOfHeld(s, t, x);
  }

  lemma SilentFree(s: State, t: Tid)
    requires Strong(s) && Enabled(s, t) && s.threads[t].Cancel? && s.threads[t].c.pc == CnFree
    ensures Stutters(s, ActCancel(s, t)) == true
  {
    var j, th := s.threads[t].c, ActCancel(s, t).threads[t];
    var x := j.seats[j.i];
    assert ThreadOk(s, s.threads[t]) && Faithful(s, s.threads[t]);
    CancelInv(s, t);
    FreesItsOwn(s, t);
    TakeOne(j.seats, j.i);
    SilentWrite(s, t, th, x, j.buf);
  }

  lemma SilentInsert(s: State, t: Tid)
    requires Strong(s) && Enabled(s, t) && s.threads[t].Book? && s.threads[t].b.pc == BkInsert
    ensures Stutters(s, ActBook(s, t)) == true
  {
    var s', j, nb := ActBook(s, t), s.threads[t].b, s.nextBooking;
    BookInv(s, t);
    InsertShape(s, t);
    InsertFaithful(s, s', t);
    FlightBegins(s, s', t, nb);
    forall x | x in s.seats ensures SeatView(s', x) == SeatView(s, x) {}
    forall b | b in s.bookings ensures EntryView(s', b) == EntryView(s, b) {}
    ViewSame(s, s');
  }

  lemma InsertShape(s: State, t: Tid)
    requires Inv(s) && t in s.threads && s.threads[t].Book? && s.threads[t].b.pc == BkInsert
    ensures var j, s', nb := s.threads[t].b, ActBook(s, t), s.nextBooking;
            && nb !in s.bookings && s'.threads == s.threads[t := Book(j.(pc := BkRow, i := 0, id := nb))]
            && s'.bookings == s.bookings[nb := Booking(j.user, j.event, |j.seats|, Confirmed)]
            && s'.rows == s.rows && s'.seats == s.seats && s'.locks == s.locks
  {
  }

  lemma InsertFaithful(s: State, s': State, t: Tid)
    requires Inv(s) && AllFaithful(s) && t in s.threads && s.threads[t].Book? && s.threads[t].b.pc == BkInsert
    requires var j, nb := s.threads[t].b, s.nextBooking;
             && s'.threads == s.threads[t := Book(j.(pc := BkRow, i := 0, id := nb))]
             && s'.bookings == s.bookings[nb := Booking(j.user, j.event, |j.seats|, Confirmed)] && s'.rows == s.rows
    ensures AllFaithful(s')
  {
    FlightBegins(s, s', t, s.nextBooking);
    forall u | u in s'.threads ensures Faithful(s', s'.threads[u]) {
      assert u != t ==> ThreadOk(s, s.threads[u]) && Faithful(s, s.threads[u]);
    }
  }

  lemma FlightBegins(s: State, s': State, t: Tid, nb: Id)
    requires t in s.threads && t in s'.threads && s'.threads == s.threads[t := s'.threads[t]]
    requires Recorder(s.threads[t]).None? && Recorder(s'.threads[t]) == Some(nb)
    ensures forall b :: InFlight(s', b) <==> InFlight(s, b) || b == nb
  {
    forall b: Id ensures InFlight(s', b) <==> InFlight(s, b) || b == nb {
      if InFlight(s, b) {
        var u :| u in s.threads && Recorder(s.threads[u]) == Some(b);
        assert u in s'.threads && Recorder(s'.threads[u]) == Some(b);
      }
      if InFlight(s', b) {
        var u :| u in s'.threads && Recorder(s'.threads[u]) == Some(b);
        assert u == t || (u in s.threads && Recorder(s.threads[u]) == Some(b));
      }
      assert Recorder(s'.threads[t]) == Some(nb);
    }
  }

  lemma RowShape(s: State, t: Tid)
    requires t in s.threads && s.threads[t].Book? && s.threads[t].b.pc == BkRow && s.threads[t].b.i < |s.threads[t].b.seats|
    ensures var j := s.threads[t].b; ActBook(s, t) == With(s, t, Book(j.(pc := BkRead))).(rows := s.rows + [Junction(j.id, j.seats[j.i])])
  {
  }

  /** The cancellations that have their rows already are not those of the booking that gets one more. */
  lemma RowFaithful(s: State, s': State, t: Tid, r: Junction)
    requires Inv(s) && AllFaithful(s) && t in s.threads && s.threads[t].Book? && s.threads[t].b.pc == BkRow
    requires r.booking == s.threads[t].b.id && s'.rows == s.rows + [r] && s'.bookings == s.bookings
    requires s.threads[t].b.i < |s.threads[t].b.seats| && s'.threads == s.threads[t := Book(s.threads[t].b.(pc := BkRead))]
    ensures AllFaithful(s')
  {
    SameFlight(s, s', t, s'.threads[t]);
    assert Recorder(s.threads[t]) == Some(r.booking) && InFlight(s, r.booking) && ThreadOk(s, s.threads[t]);
    forall u | u in s'.threads ensures Faithful(s', s'.threads[u]) {
      var th := s.threads[u];
      assert Faithful(s, th) && ThreadOk(s, th);
      if th.Cancel? {
        RowsOfAppend(s.rows, r, th.c.id);
      }
    }
  }

  lemma SilentRow(s: State, t: Tid)
    requires Strong(s) && Enabled(s, t) && s.threads[t].Book?
    requires s.threads[t].b.pc == BkRow && s.threads[t].b.i < |s.threads[t].b.seats|
    ensures Stutters(s, ActBook(s, t)) == true
  {
    var s', j := ActBook(s, t), s.threads[t].b;
    var r := Junction(j.id, j.seats[j.i]);
    BookInv(s, t);
    RowShape(s, t);
    SameFlight(s, s', t, s'.threads[t]);
    assert Recorder(s.threads[t]) == Some(j.id) && InFlight(s, j.id);
    RowFaithful(s, s', t, r);
    forall x | x in s.seats ensures SeatView(s', x) == SeatView(s, x) {}
    forall b | b in s.bookings && !InFlight(s, b) ensures EntryView(s', b) == EntryView(s, b) {
      RowsOfAppend(s.rows, r, b);
    }
    ViewSame(s, s');
  }

  // ---------------------------------------------------------------------------
  // Steps that are one atomic step
  // ---------------------------------------------------------------------------

  /** The move from `s` to `s'` is the atomic step `e`. */
  ghost predicate Acted(s: State, e: Effect, s': State) {
    Strong(s) && Strong(s') && Allowed(View(s), e) && View(s') == Apply(View(s), e)
  }

  lemma StutterActs(s: State, s': State)
    requires Stutters(s, s')
    ensures Acted(s, Nothing, s')
  {
  }

  lemma FlightEnds(s: State, s': State, t: Tid, b: Id)
    requires RecordersDiffer(s) && t in s.threads && t in s'.threads && s'.threads == s.threads[t := s'.threads[t]]
    requires Recorder(s.threads[t]) == Some(b) && Recorder(s'.threads[t]).None?
    ensures forall c :: InFlight(s', c) <==> InFlight(s, c) && c != b
    ensures InFlight(s, b)
  {
    forall c: Id ensures InFlight(s', c) <==> InFlight(s, c) && c != b {
      if InFlight(s, c) && c != b {
        var u :| u in s.threads && Recorder(s.threads[u]) == Some(c);
        assert u in s'.threads && Recorder(s'.threads[u]) == Some(c);
      }
      if InFlight(s', c) {
        var u :| u in s'.threads && Recorder(s'.threads[u]) == Some(c);
        assert u in s.threads && Recorder(s.threads[u]) == Some(c) && u != t;
      }
    }
  }

  lemma CommitFaithful(s: State, t: Tid)
    requires Strong(s) && t in s.threads && s.threads[t].Book? && s.threads[t].b.pc == BkCommit
    ensures AllFaithful(ActBook(s, t))
  {
    var s', j := ActBook(s, t), s.threads[t].b;
    FlightEnds(s, s', t, j.id);
    forall u | u in s'.threads ensures Faithful(s', s'.threads[u]) {
      assert Faithful(s, s.threads[u]);
    }
  }

  /** At commit the thread has marked exactly the seats of its booking. */
  lemma CommitFacts(s: State, t: Tid)
    requires Strong(s) && t in s.threads && s.threads[t].Book? && s.threads[t].b.pc == BkCommit
    ensures var j := s.threads[t].b;
            && j.id in s.bookings && EntryView(s, j.id) == Entry(j.user, j.event, j.seats, |j.seats|, Confirmed)
            && InFlight(s, j.id) && 1 <= |j.seats| <= MAX_SEATS && Ascending(j.seats)
            && (forall x :: x in j.seats ==>
                  && x in s.seats && s.seats[x] == Seat(j.event, Booked, j.user)
                  && Holds(s.threads[t], SeatRow(x))
                  && SeatView(s, x) == Seat(j.event, Available, 0))
  {
    var j := s.threads[t].b;
    assert ThreadOk(s, s.threads[t]) && Faithful(s, s.threads[t]);
    assert Recorder(s.threads[t]) == Some(j.id);
    assert j.seats[..|j.seats|] == j.seats && Take(j.seats, |j.seats|) == j.seats;
    forall x | x in j.seats
      ensures x in s.seats && s.seats[x] == Seat(j.event, Booked, j.user) && Holds(s.threads[t], SeatRow(x))
              && SeatView(s, x) == Seat(j.event, Available, 0)
    {
      var k :| 0 <= k < |j.seats| && j.seats[k] == x;
      assert SeatOk(s, j, k);
      OneHolder(s, t, t, SeatRow(x));
      assert x in Take(j.seats, Marked(j));
    }
  }

  lemma CommitSeats(s: State, t: Tid)
    requires Strong(s) && t in s.threads && s.threads[t].Book? && s.threads[t].b.pc == BkCommit
    requires LocksOk(ActBook(s, t))
    ensures var j, s' := s.threads[t].b, ActBook(s, t);
            View(s').seats == SetSeats(View(s).seats, j.seats, Booked, j.user)
  {
    var j, s' := s.threads[t].b, ActBook(s, t);
    CommitFacts(s, t);
    CommitShape(s, t);
    SeatsCommitted(s, s', t);
  }

  lemma CommitShape(s: State, t: Tid)
    requires t in s.threads && s.threads[t].Book? && s.threads[t].b.pc == BkCommit
    ensures ActBook(s, t) == With(s, t, Release(Seats(s.threads[t].b.seats), Ok))
  {
  }

  lemma SeatsCommitted(s: State, s': State, t: Tid)
    requires LocksOk(s) && LocksOk(s') && t in s.threads && s.threads[t].Book?
    requires s' == With(s, t, Release(Seats(s.threads[t].b.seats), Ok))
    requires var j := s.threads[t].b;
             forall x :: x in j.seats ==>
               x in s.seats && s.seats[x] == Seat(j.event, Booked, j.user) && Holds(s.threads[t], SeatRow(x)) && SeatView(s, x) == Seat(j.event, Available, 0)
    requires forall x :: x !in s.threads[t].b.seats ==> !(SeatRow(x) in s.locks && s.locks[SeatRow(x)] == t)
    ensures View(s').seats == SetSeats(View(s).seats, s.threads[t].b.seats, Booked, s.threads[t].b.user)
  {
    var j := s.threads[t].b;
    forall x | x in s.seats
      ensures SeatView(s', x) == if x in j.seats then SeatView(s, x).(status := Booked, bookedBy := j.user) else SeatView(s, x)
    {
      if x in j.seats {
        assert s.locks[SeatRow(x)] == t;
      }
    }
  }

  lemma CommitBookings(s: State, t: Tid)
    requires Strong(s) && t in s.threads && s.threads[t].Book? && s.threads[t].b.pc == BkCommit
    requires LocksOk(ActBook(s, t))
    ensures var j, s' := s.threads[t].b, ActBook(s, t);
            View(s').bookings == View(s).bookings[j.id := Entry(j.user, j.event, j.seats, |j.seats|, Confirmed)]
  {
    var j, s' := s.threads[t].b, ActBook(s, t);
    CommitFacts(s, t);
    FlightEnds(s, s', t, j.id);
    forall b | b in s.bookings ensures EntryView(s', b) == EntryView(s, b) {}
  }

  /** A booking happens, all at once, when its transaction commits. */
  lemma CommitActs(s: State, t: Tid)
    requires Strong(s) && Enabled(s, t) && s.threads[t].Book? && s.threads[t].b.pc == BkCommit
    ensures var j := s.threads[t].b; Acted(s, Books(j.id, j.user, j.event, j.seats), ActBook(s, t)) == true
  {
    var j, s' := s.threads[t].b, ActBook(s, t);
    BookInv(s, t);
    CommitFaithful(s, t);
    CommitFacts(s, t);
    CommitSeats(s, t);
    CommitBookings(s, t);
    var e := Books(j.id, j.user, j.event, j.seats);
    assert Allowed(View(s), e);
    EffectKeeps(View(s), e);
  }

  lemma CancelFacts(s: State, t: Tid)
    requires Strong(s) && t in s.threads && s.threads[t].Cancel? && s.threads[t].c.pc == CnMark
    ensures var j := s.threads[t].c;
            && j.id in s.bookings && !InFlight(s, j.id) && s.bookings[j.id] == j.found
            && j.found.status == Confirmed && j.found.user == j.user
            && (forall x :: x in RowsOf(s.rows, j.id) <==> x in j.seats)
            && (forall x :: x in j.seats ==>
                  && x in s.seats && Holds(s.threads[t], SeatRow(x))
                  && s.seats[x].status == Available && s.seats[x].bookedBy == 0)
  {
    var j := s.threads[t].c;
    assert ThreadOk(s, s.threads[t]) && Faithful(s, s.threads[t]);
    forall x | x in j.seats
      ensures x in s.seats && Holds(s.threads[t], SeatRow(x)) && s.seats[x].status == Available && s.seats[x].bookedBy == 0
    {
      assert x in RowsOf(s.rows, j.id);
      var k :| 0 <= k < |j.seats| && j.seats[k] == x;
      assert SeatFree(s, j.seats[k]);
    }
  }

  lemma CancelSeatView(s: State, s': State, t: Tid, x: Id)
    requires LocksOk(s) && LocksOk(s') && t in s.threads && s.threads[t].Cancel? && s.threads[t].c.pc == CnMark
    requires s'.locks == s.locks && s'.seats == s.seats && x in s.seats
    requires t in s'.threads && s'.threads == s.threads[t := Cancel(s.threads[t].c.(pc := CnCommit))]
    requires x in s.threads[t].c.seats ==> s.seats[x].status == Available && s.seats[x].bookedBy == 0
    ensures SeatView(s', x) == if x in s.threads[t].c.seats then SeatView(s, x).(status := Available, bookedBy := 0) else SeatView(s, x)
  {
    if x in s.threads[t].c.seats {
      OneHolder(s, t, t, SeatRow(x));
    }
  }

  lemma CancelSeats(s: State, t: Tid)
    requires Strong(s) && t in s.threads && s.threads[t].Cancel? && s.threads[t].c.pc == CnMark
    requires LocksOk(ActCancel(s, t))
    ensures var j, s' := s.threads[t].c, ActCancel(s, t);
            View(s').seats == SetSeats(View(s).seats, RowsOf(s.rows, j.id), Available, 0)
  {
    var j, s' := s.threads[t].c, ActCancel(s, t);
    CancelFacts(s, t);
    MarkShape(s, t);
    SeatsMarked(s, s', t);
  }

  lemma MarkShape(s: State, t: Tid)
    requires t in s.threads && s.threads[t].Cancel? && s.threads[t].c.pc == CnMark
    ensures var j, s' := s.threads[t].c, ActCancel(s, t);
            && s'.locks == s.locks && s'.seats == s.seats && s'.rows == s.rows && s'.threads == s.threads[t := Cancel(j.(pc := CnCommit))]
            && s'.bookings == s.bookings[j.id := j.found.(status := Cancelled)]
  {
  }

  lemma SeatsMarked(s: State, s': State, t: Tid)
    requires LocksOk(s) && LocksOk(s') && t in s.threads && s.threads[t].Cancel? && s.threads[t].c.pc == CnMark
    requires s'.locks == s.locks && s'.seats == s.seats && s'.threads == s.threads[t := Cancel(s.threads[t].c.(pc := CnCommit))]
    requires forall x :: x in RowsOf(s.rows, s.threads[t].c.id) <==> x in s.threads[t].c.seats
    requires forall x :: x in s.threads[t].c.seats ==> x in s.seats && s.seats[x].status == Available && s.seats[x].bookedBy == 0
    ensures View(s').seats == SetSeats(View(s).seats, RowsOf(s.rows, s.threads[t].c.id), Available, 0)
  {
    var j := s.threads[t].c;
    forall x | x in s.seats
      ensures SeatView(s', x) == if x in j.seats then SeatView(s, x).(status := Available, bookedBy := 0) else SeatView(s, x)
    {
      CancelSeatView(s, s', t, x);
    }
  }

  lemma BookingsMarked(s: State, s': State, id: Id, found: Booking)
    requires LocksOk(s) && LocksOk(s') && id in s.bookings && s.bookings[id] == found && !InFlight(s, id)
    requires s'.bookings == s.bookings[id := found.(status := Cancelled)] && s'.rows == s.rows
    requires forall b :: InFlight(s', b) <==> InFlight(s, b)
    ensures var a := View(s);
            && id in a.bookings && a.bookings[id] == EntryView(s, id)
            && View(s').bookings == a.bookings[id := a.bookings[id].(status := Cancelled)]
  {
    forall b | b in s.bookings && b != id ensures EntryView(s', b) == EntryView(s, b) {}
  }

  lemma MarkBookings(s: State, t: Tid)
    requires Strong(s) && t in s.threads && s.threads[t].Cancel? && s.threads[t].c.pc == CnMark
    requires LocksOk(ActCancel(s, t)) && forall b :: InFlight(ActCancel(s, t), b) <==> InFlight(s, b)
    ensures var j, a := s.threads[t].c, View(s);
            && j.id in a.bookings && a.bookings[j.id] == EntryView(s, j.id)
            && View(ActCancel(s, t)).bookings == a.bookings[j.id := a.bookings[j.id].(status := Cancelled)]
  {
    var j, s' := s.threads[t].c, ActCancel(s, t);
    CancelFacts(s, t);
    MarkShape(s, t);
    BookingsMarked(s, s', j.id, j.found);
  }

  lemma MarkView(s: State, t: Tid)
    requires Strong(s) && Enabled(s, t) && s.threads[t].Cancel? && s.threads[t].c.pc == CnMark
    requires Inv(ActCancel(s, t)) && forall b :: InFlight(ActCancel(s, t), b) <==> InFlight(s, b)
    ensures var j := s.threads[t].c;
            Allowed(View(s), Cancels(j.id, j.user)) && View(ActCancel(s, t)) == Apply(View(s), Cancels(j.id, j.user))
  {
    CancelFacts(s, t);
    CancelSeats(s, t);
    MarkBookings(s, t);
  }

  /** A cancellation happens, all at once, when it marks its booking. */
  lemma MarkActs(s: State, t: Tid)
    requires Strong(s) && Enabled(s, t) && s.threads[t].Cancel? && s.threads[t].c.pc == CnMark
    ensures var j := s.threads[t].c; Acted(s, Cancels(j.id, j.user), ActCancel(s, t)) == true
  {
    var j, s' := s.threads[t].c, ActCancel(s, t);
    CancelInv(s, t);
    SameFlight(s, s', t, s'.threads[t]);
    MarkView(s, t);
    MarkFaithful(s, t);
    EffectKeeps(View(s), Cancels(j.id, j.user));
  }

  lemma MarkFaithful(s: State, t: Tid)
    requires Strong(s) && t in s.threads && s.threads[t].Cancel? && s.threads[t].c.pc == CnMark
    requires forall b :: InFlight(ActCancel(s, t), b) <==> InFlight(s, b)
    ensures AllFaithful(ActCancel(s, t))
  {
    var s', j := ActCancel(s, t), s.threads[t].c;
    forall u | u in s'.threads ensures Faithful(s', s'.threads[u]) {
      assert Faithful(s, s.threads[u]) && Faithful(s, s.threads[t]);
      assert ThreadOk(s, s.threads[u]);
      if s.threads[u].Book? && Recorder(s.threads[u]).Some? {
        assert InFlight(s, s.threads[u].b.id);
      }
    }
  }

  /** A transaction has overwritten existing seats only. */
  lemma UndoMissing(s: State, th: Thread, x: Id, v: Seat)
    requires ThreadOk(s, th) && x !in s.seats
    ensures Undo(th, x, v) == v
  {
    match th
    case Book(j) =>
      forall y | y in Take(j.seats, Marked(j)) ensures y in s.seats {
        var k :| 0 <= k < Marked(j) && j.seats[k] == y;
        assert SeatOk(s, j, k);
      }
    case Cancel(j) =>
      forall y | y in Take(j.seats, Freed(j)) ensures y in s.seats {
        var k :| 0 <= k < Freed(j) && j.seats[k] == y;
        assert SeatFree(s, j.seats[k]);
      }
    case _ =>
  }

  lemma NewSeatView(s: State, s': State, t: Tid)
    requires Inv(s) && Inv(s') && t in s.threads && s.threads[t].Create?
    requires t in s'.threads && s'.threads == s.threads[t := s'.threads[t]] && s'.locks == s.locks
    requires s.nextSeat in s'.seats
    ensures SeatView(s', s.nextSeat) == s'.seats[s.nextSeat]
  {
    var r := SeatRow(s.nextSeat);
    if r in s.locks {
      var u := s.locks[r];
      assert Holds(s.threads[u], r) && ThreadOk(s, s.threads[u]);
      UndoMissing(s, s.threads[u], s.nextSeat, s'.seats[s.nextSeat]);
    }
  }

  lemma CreateSeatsView(s: State, t: Tid)
    requires Inv(s) && t in s.threads && s.threads[t].Create? && Inv(ActCreate(s, t))
    requires s.threads[t].made < s.threads[t].rows * s.threads[t].cols
    ensures View(ActCreate(s, t)).seats == View(s).seats[s.nextSeat := Seat(s.threads[t].event, Available, 0)]
  {
    var s' := ActCreate(s, t);
    NewSeatView(s, s', t);
    forall x | x in s.seats ensures x != s.nextSeat && SeatView(s', x) == SeatView(s, x) {}
  }

  lemma CreateView(s: State, t: Tid)
    requires Strong(s) && Enabled(s, t) && s.threads[t].Create? && Inv(ActCreate(s, t))
    requires s.threads[t].made < s.threads[t].rows * s.threads[t].cols
    ensures AllFaithful(ActCreate(s, t))
    ensures View(ActCreate(s, t)) == Apply(View(s), Adds(s.nextSeat, s.threads[t].event))
  {
    var s' := ActCreate(s, t);
    SameFlight(s, s', t, s'.threads[t]);
    FaithfulSame(s, s', t, s'.threads[t]);
    CreateSeatsView(s, t);
    forall b | b in s.bookings ensures EntryView(s', b) == EntryView(s, b) {}
    assert View(s').bookings == View(s).bookings;
  }

  lemma CreateActs(s: State, t: Tid)
    requires Strong(s) && Enabled(s, t) && s.threads[t].Create?
    ensures Acted(s, EffectOf(s, Acts(t)), ActCreate(s, t)) == true
  {
    var s', th := ActCreate(s, t), s.threads[t];
    CreateInv(s, t);
    if th.made < th.rows * th.cols {
      CreateView(s, t);
      EffectKeeps(View(s), Adds(s.nextSeat, th.event));
    } else {
      SilentLocal(s, t, Done(Ok));
      StutterActs(s, s');
    }
  }

  lemma SameLockViews(s: State, s': State, t: Tid, th: Thread)
    requires LocksOk(s) && LocksOk(s') && t !in s.threads && s'.threads == s.threads[t := th] && s'.locks == s.locks && s'.seats == s.seats
    ensures forall x :: x in s.seats ==> SeatView(s', x) == SeatView(s, x)
  {
  }

  lemma ArriveActs(s: State, t: Tid, q: Request)
    requires Strong(s) && t !in s.threads
    ensures Stutters(s, Arrive(s, t, q)) == true
  {
    var s', th := Arrive(s, t, q), Start(q, s);
    ArriveInv(s, t, q);
    StartsIdle(s, q);
    SameLockViews(s, s', t, th);
    Silent(s, s', t, th);
  }

  lemma EventActs(s: State, events: map<Id, bool>)
    requires Strong(s)
    ensures Stutters(s, s.(events := events)) == true
  {
    var s' := s.(events := events);
    EventInv(s, events);
    forall b: Id ensures InFlight(s', b) <==> InFlight(s, b) {}
    forall t | t in s'.threads ensures Faithful(s', s'.threads[t]) {
      assert Faithful(s, s.threads[t]);
    }
    forall x | x in s.seats ensures SeatView(s', x) == SeatView(s, x) {}
    forall b | b in s.bookings ensures EntryView(s', b) == EntryView(s, b) {}
    ViewSame(s, s');
  }

  lemma BookActs(s: State, t: Tid)
    requires Strong(s) && Enabled(s, t) && s.threads[t].Book?
    ensures Acted(s, EffectOf(s, Acts(t)), ActBook(s, t)) == true
  {
    var j, s' := s.threads[t].b, ActBook(s, t);
    if j.pc == BkCommit {
      CommitActs(s, t);
    } else {
      if j.pc == BkLock {
        SilentBookLock(s, t);
      } else if j.pc == BkInsert {
        SilentInsert(s, t);
      } else if j.pc == BkMark {
        SilentMark(s, t);
      } else if j.pc == BkRow {
        if j.i < |j.seats| {
          SilentRow(s, t);
        } else {
          SilentRowsDone(s, t);
        }
      } else {
        SilentBook(s, t);
      }
      StutterActs(s, s');
    }
  }

  lemma CancelActs(s: State, t: Tid)
    requires Strong(s) && Enabled(s, t) && s.threads[t].Cancel? && SeesAllRows(s, Acts(t))
    ensures Acted(s, EffectOf(s, Acts(t)), ActCancel(s, t)) == true
  {
    var j, s' := s.threads[t].c, ActCancel(s, t);
    if j.pc == CnMark {
      MarkActs(s, t);
    } else {
      if j.pc == CnLock || j.pc == CnSeatLock {
        SilentCancelLock(s, t);
      } else if j.pc == CnScan {
        SilentCancelScan(s, t);
      } else if j.pc == CnFree {
        SilentFree(s, t);
      } else {
        SilentCancel(s, t);
      }
      StutterActs(s, s');
    }
  }

  /** Every step is invisible or is exactly one atomic step: a booking or a cancellation happens wholly or not at all. */
  lemma MoveRefines(s: State, m: Move)
    requires Strong(s) && CanMove(s, m) && SeesAllRows(s, m)
    ensures Acted(s, EffectOf(s, m), Moved(s, m)) == true
  {
    match m
    case Arrives(t, q) =>
      ArriveActs(s, t, q);
      StutterActs(s, Moved(s, m));
    case EventSet(e, active) =>
      EventActs(s, s.events[e := active]);
      StutterActs(s, Moved(s, m));
    case EventGone(e) =>
      EventActs(s, s.events - {e});
      StutterActs(s, Moved(s, m));
    case Acts(t) =>
      match s.threads[t]
      case Book(_) => BookActs(s, t);
      case Cancel(_) => CancelActs(s, t);
      case Create(_, _, _, _) => CreateActs(s, t);
      case Release(_, _) =>
        SilentRelease(s, t);
        StutterActs(s, Moved(s, m));
  }

  // ---------------------------------------------------------------------------
  // Refusals are right
  // ---------------------------------------------------------------------------

  /** What a refused request saw is how things are in the atomic view at that moment. */
  ghost predicate BookRefusal(a: Ledger, j: BookJob, r: Result) {
    match r
    case NotFound => exists x :: x in j.seats && x !in a.seats
    case InvalidArg => exists x :: x in j.seats && x in a.seats && a.seats[x].event != j.event
    case SeatUnavail => exists x :: x in j.seats && x in a.seats && a.seats[x].status != Available
    case _ => false
  }

  ghost predicate CancelRefusal(a: Ledger, j: CancelJob, r: Result) {
    match r
    case NotFound => j.id !in a.bookings
    case Auth => j.id in a.bookings && a.bookings[j.id].user != j.user
    case Generic => j.id in a.bookings && a.bookings[j.id].status == Cancelled
    case _ => false
  }

  lemma BookRefusalRight(s: State, t: Tid)
    requires Strong(s) && Enabled(s, t) && s.threads[t].Book? && s.threads[t].b.pc == BkCheck
    requires ActBook(s, t).threads[t].Release?
    ensures BookRefusal(View(s), s.threads[t].b, ActBook(s, t).threads[t].result)
  {
    var j := s.threads[t].b;
    var x := j.seats[j.i];
    assert x in j.seats && Holds(s.threads[t], SeatRow(x));
    if x in s.seats {
      ViewOfHeld(s, t, x);
    }
  }

  /** A refused cancellation of a booking that is not in flight is right to be refused. */
  lemma CancelRefusalRight(s: State, t: Tid)
    requires Strong(s) && Enabled(s, t) && s.threads[t].Cancel? && s.threads[t].c.pc == CnFind && !InFlight(s, s.threads[t].c.id)
    requires ActCancel(s, t).threads[t].Release?
    ensures CancelRefusal(View(s), s.threads[t].c, ActCancel(s, t).threads[t].result)
  {
    assert Faithful(s, s.threads[t]);
  }

  // ---------------------------------------------------------------------------
  // Runs
  // ---------------------------------------------------------------------------

  ghost predicate ScansComplete(s: State, ms: seq<Move>)
    requires Runs(s, ms)
    decreases |ms|
  {
    ms != [] ==> SeesAllRows(s, ms[0]) && ScansComplete(Moved(s, ms[0]), ms[1..])
  }

  /** The atomic steps of a run, in order. */
  ghost function Effects(s: State, ms: seq<Move>): seq<Effect>
    requires Runs(s, ms)
    decreases |ms|
  {
    if ms == [] then [] else [EffectOf(s, ms[0])] + Effects(Moved(s, ms[0]), ms[1..])
  }

  ghost predicate AllAllowed(a: Ledger, es: seq<Effect>)
    decreases |es|
  {
    es != [] ==> Allowed(a, es[0]) && AllAllowed(Apply(a, es[0]), es[1..])
  }

  ghost function ApplyAll(a: Ledger, es: seq<Effect>): Ledger
    requires AllAllowed(a, es)
    decreases |es|
  {
    if es == [] then a else ApplyAll(Apply(a, es[0]), es[1..])
  }

  /** A run whose cancellations find all rows, however interleaved, has the outcome of its atomic steps done one after another. */
  lemma {:induction false} RunsRefine(s: State, ms: seq<Move>)
    requires Strong(s) && Runs(s, ms) && ScansComplete(s, ms)
    ensures Strong(After(s, ms)) && AllAllowed(View(s), Effects(s, ms))
    ensures View(After(s, ms)) == ApplyAll(View(s), Effects(s, ms))
    decreases |ms|
  {
    if ms != [] {
      MoveRefines(s, ms[0]);
      RunsRefine(Moved(s, ms[0]), ms[1..]);
      assert Effects(s, ms)[1..] == Effects(Moved(s, ms[0]), ms[1..]);
    }
  }

  lemma InitialStrong()
    ensures Strong(Initial) && View(Initial) == Ledger(map[], map[])
  {
  }

  // ---------------------------------------------------------------------------
  // Quiescence
  // ---------------------------------------------------------------------------

  ghost predicate Quiet(s: State) {
    forall t :: t in s.threads ==> s.threads[t].Done?
  }

  lemma LockHolder(s: State, r: Record)
    requires LocksOk(s) && r in s.locks
    ensures s.locks[r] in s.threads && !s.threads[s.locks[r]].Done?
  {
    assert Holds(s.threads[s.locks[r]], r);
  }

  /** When all is quiet, the tables themselves are what the atomic view says. */
  lemma QuietView(s: State)
    requires Inv(s) && Quiet(s)
    ensures s.locks == map[] && View(s).seats == s.seats
    ensures forall b :: b in s.bookings ==> b in View(s).bookings && View(s).bookings[b] == EntryView(s, b)
    ensures forall b, x :: Claims(s, b, x) <==> Claimed(View(s), b, x)
  {
    forall r ensures r !in s.locks {
      if r in s.locks {
        LockHolder(s, r);
      }
    }
    forall b: Id ensures !InFlight(s, b) {}
  }

  /** At rest a seat is booked if and only if exactly one confirmed booking claims it, and by that booking's user. */
  lemma QuietSeats(s: State, x: Id)
    requires Strong(s) && Quiet(s) && x in s.seats
    ensures s.seats[x].status == Booked <==> exists b :: Claims(s, b, x) && forall c :: Claims(s, c, x) ==> c == b
    ensures forall b :: Claims(s, b, x) ==> s.seats[x].bookedBy == s.bookings[b].user
    ensures s.seats[x].status != Booked ==> s.seats[x].status == Available && s.seats[x].bookedBy == 0
  {
    QuietView(s);
    var a := View(s);
    if s.seats[x].status == Booked {
      var b :| Claimed(a, b, x);
      assert Claims(s, b, x);
      forall c | Claims(s, c, x) ensures c == b {
        assert Claimed(a, c, x);
      }
    }
  }
}
