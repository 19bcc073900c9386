// When cancellation races booking: booking_cancel does not compare the rows it found with the booking's seat count, so a
// cancellation that arrives while the booking is still inserting rows leaves a booked seat that nobody claims. Here is
// such a run, and the proof that this is the only way to go wrong: at rest every seat is right if and only if every
// cancellation found all the rows of its booking.
module BookingRace {
  import opened BookingModel
  import opened BookingSafety
  import opened BookingRefinement
  import opened Common

  // ---------------------------------------------------------------------------
  // What every run keeps, whatever its cancellations find
  // ---------------------------------------------------------------------------

  /** A booking that is no longer being filled in has all its rows, and rows name seats of the booking's event. */
  ghost predicate RecordOk(s: State, b: Id)
    requires b in s.bookings
  {
    && (!InFlight(s, b) ==> |RowsOf(s.rows, b)| == s.bookings[b].seatCount && 1 <= s.bookings[b].seatCount <= MAX_SEATS)
    && (forall x :: x in RowsOf(s.rows, b) ==> x in s.seats && s.seats[x].event == s.bookings[b].event)
  }

  ghost predicate RecordsOk(s: State) {
    forall b :: b in s.bookings ==> RecordOk(s, b) == true
  }

  lemma RecordAt(s: State, b: Id)
    requires RecordsOk(s) && b in s.bookings
    ensures RecordOk(s, b)
  {
    assert RecordOk(s, b) == true;
  }

  /** Nothing about rows, counts and events changes. */
  lemma RecordsSame(s: State, s': State)
    requires RecordsOk(s) && s'.rows == s.rows
    requires forall b :: InFlight(s', b) <==> InFlight(s, b)
    requires forall b :: b in s'.bookings ==> b in s.bookings && s'.bookings[b].(status := Confirmed) == s.bookings[b].(status := Confirmed)
    requires forall x :: x in s.seats ==> x in s'.seats && s'.seats[x].event == s.seats[x].event
    ensures RecordsOk(s')
  {
    forall b | b in s'.bookings ensures RecordOk(s', b) == true {
      RecordAt(s, b);
    }
  }

  lemma InsertRecords(s: State, t: Tid)
    requires Inv(s) && RecordsOk(s) && t in s.threads && s.threads[t].Book? && s.threads[t].b.pc == BkInsert
    ensures RecordsOk(ActBook(s, t))
  {
    var s', nb := ActBook(s, t), s.nextBooking;
    FlightBegins(s, s', t, nb);
    RowsExist(s, nb);
    forall b | b in s'.bookings ensures RecordOk(s', b) == true {
      if b != nb {
        RecordAt(s, b);
      }
    }
  }

  lemma RowRecords(s: State, t: Tid)
    requires Inv(s) && RecordsOk(s) && t in s.threads && s.threads[t].Book? && s.threads[t].b.pc == BkRow
    requires s.threads[t].b.i < |s.threads[t].b.seats|
    ensures RecordsOk(ActBook(s, t))
  {
    var s', j := ActBook(s, t), s.threads[t].b;
    assert ThreadOk(s, s.threads[t]) && SeatOk(s, j, j.i);
    SameFlight(s, s', t, s'.threads[t]);
    assert Recorder(s.threads[t]) == Some(j.id) && InFlight(s, j.id);
    forall b | b in s'.bookings ensures RecordOk(s', b) == true {
      RecordAt(s, b);
      RowsOfAppend(s.rows, Junction(j.id, j.seats[j.i]), b);
    }
  }

  lemma CommitRecords(s: State, t: Tid)
    requires Inv(s) && RecordsOk(s) && t in s.threads && s.threads[t].Book? && s.threads[t].b.pc == BkCommit
    ensures RecordsOk(ActBook(s, t))
  {
    var s', j := ActBook(s, t), s.threads[t].b;
    assert ThreadOk(s, s.threads[t]);
    FlightEnds(s, s', t, j.id);
    forall b | b in s'.bookings ensures RecordOk(s', b) == true {
      RecordAt(s, b);
    }
  }

  lemma BookRecords(s: State, t: Tid)
    requires Inv(s) && RecordsOk(s) && Enabled(s, t) && s.threads[t].Book?
    ensures RecordsOk(ActBook(s, t)) == true
  {
    var s', j := ActBook(s, t), s.threads[t].b;
    assert ThreadOk(s, s.threads[t]);
    if j.pc == BkInsert {
      InsertRecords(s, t);
    } else if j.pc == BkCommit {
      CommitRecords(s, t);
    } else if j.pc == BkRow && j.i < |j.seats| {
      RowRecords(s, t);
    } else {
      PlainBook(s, t);
      SameFlight(s, s', t, s'.threads[t]);
      RecordsSame(s, s');
    }
  }

  /** The steps of a booking thread that add neither bookings nor rows and do not end it. */
  lemma PlainBook(s: State, t: Tid)
    requires Inv(s) && Enabled(s, t) && s.threads[t].Book?
    requires var j := s.threads[t].b; j.pc !in {BkInsert, BkCommit} && (j.pc == BkRow ==> j.i >= |j.seats|)
    ensures var s' := ActBook(s, t);
            && t in s'.threads && s'.threads == s.threads[t := s'.threads[t]] && Recorder(s'.threads[t]) == Recorder(s.threads[t])
            && s'.rows == s.rows && s'.bookings == s.bookings
            && (forall x :: x in s.seats ==> x in s'.seats && s'.seats[x].event == s.seats[x].event)
            && (forall x :: x in s.seats && s.seats[x].status == Booked ==> s'.seats[x] == s.seats[x])
  {
    var j := s.threads[t].b;
    assert ThreadOk(s, s.threads[t]);
    if j.pc == BkRead || j.pc == BkMark {
      assert SeatOk(s, j, j.i);
    }
  }

  /** What a cancellation's step leaves alone. */
  lemma PlainCancel(s: State, t: Tid)
    requires Inv(s) && Enabled(s, t) && s.threads[t].Cancel?
    ensures var s' := ActCancel(s, t);
            && t in s'.threads && s'.threads == s.threads[t := s'.threads[t]] && Recorder(s'.threads[t]).None?
            && s'.rows == s.rows && (forall x :: x in s.seats ==> x in s'.seats && s'.seats[x].event == s.seats[x].event)
  {
    CancelThread(s, t);
    if s.threads[t].c.pc == CnFree {
      assert ThreadOk(s, s.threads[t]);
    }
  }

  lemma CancelThreadEarly(s: State, t: Tid)
    requires t in s.threads && s.threads[t].Cancel? && s.threads[t].c.pc in {CnBegin, CnLock, CnFind, CnScan}
    ensures var s' := ActCancel(s, t);
            && t in s'.threads && s'.threads == s.threads[t := s'.threads[t]] && Recorder(s'.threads[t]).None?
            && s'.rows == s.rows && (s.threads[t].c.pc != CnFree ==> s'.seats == s.seats)
  {
  }

  lemma CancelThreadLate(s: State, t: Tid)
    requires t in s.threads && s.threads[t].Cancel? && s.threads[t].c.pc in {CnSeatLock, CnRead, CnFree, CnMark, CnCommit}
    ensures var s' := ActCancel(s, t);
            && t in s'.threads && s'.threads == s.threads[t := s'.threads[t]] && Recorder(s'.threads[t]).None?
            && s'.rows == s.rows && (s.threads[t].c.pc != CnFree ==> s'.seats == s.seats)
  {
  }

  lemma CancelThread(s: State, t: Tid)
    requires Enabled(s, t) && s.threads[t].Cancel?
    ensures var s' := ActCancel(s, t);
            && t in s'.threads && s'.threads == s.threads[t := s'.threads[t]] && Recorder(s'.threads[t]).None?
            && s'.rows == s.rows && (s.threads[t].c.pc != CnFree ==> s'.seats == s.seats)
  {
    if s.threads[t].c.pc in {CnBegin, CnLock, CnFind, CnScan} {
      CancelThreadEarly(s, t);
    } else {
      CancelThreadLate(s, t);
    }
  }

  lemma CancelBookings(s: State, t: Tid)
    requires Inv(s) && Enabled(s, t) && s.threads[t].Cancel?
    ensures var s' := ActCancel(s, t);
            forall b :: b in s'.bookings ==> b in s.bookings && s'.bookings[b].(status := Confirmed) == s.bookings[b].(status := Confirmed)
  {
    CancelTables(s, t);
    assert ThreadOk(s, s.threads[t]);
  }

  /** Only its second last step writes to the bookings table. */
  lemma CancelTables(s: State, t: Tid)
    requires t in s.threads && s.threads[t].Cancel?
    ensures var j := s.threads[t].c;
            ActCancel(s, t).bookings == if j.pc == CnMark then s.bookings[j.id := j.found.(status := Cancelled)] else s.bookings
  {
  }

  lemma CancelRecords(s: State, t: Tid)
    requires Inv(s) && RecordsOk(s) && Enabled(s, t) && s.threads[t].Cancel?
    ensures RecordsOk(ActCancel(s, t)) == true
  {
    var s' := ActCancel(s, t);
    PlainCancel(s, t);
    CancelBookings(s, t);
    SameFlight(s, s', t, s'.threads[t]);
    RecordsSame(s, s');
  }

  lemma CreateRecords(s: State, t: Tid)
    requires Inv(s) && RecordsOk(s) && Enabled(s, t) && s.threads[t].Create?
    ensures RecordsOk(ActCreate(s, t)) == true
  {
    var s' := ActCreate(s, t);
    SameFlight(s, s', t, s'.threads[t]);
    RecordsSame(s, s');
  }

  lemma ReleaseRecords(s: State, t: Tid)
    requires Inv(s) && RecordsOk(s) && Enabled(s, t) && s.threads[t].Release?
    ensures RecordsOk(ActRelease(s, t)) == true
  {
    var s' := ActRelease(s, t);
    SameFlight(s, s', t, s'.threads[t]);
    RecordsSame(s, s');
  }

  lemma ArriveRecords(s: State, t: Tid, q: Request)
    requires Inv(s) && RecordsOk(s) && t !in s.threads
    ensures RecordsOk(Arrive(s, t, q)) == true
  {
    var s' := Arrive(s, t, q);
    SameFlight(s, s', t, s'.threads[t]);
    RecordsSame(s, s');
  }

  lemma EventRecords(s: State, s': State)
    requires RecordsOk(s) && s' == s.(events := s'.events)
    ensures RecordsOk(s')
  {
    forall b: Id ensures InFlight(s', b) <==> InFlight(s, b) {}
    RecordsSame(s, s');
  }

  lemma MoveRecords(s: State, m: Move)
    requires Inv(s) && RecordsOk(s) && CanMove(s, m)
    ensures RecordsOk(Moved(s, m)) == true
  {
    match m
    case Arrives(t, q) => ArriveRecords(s, t, q);
    case EventSet(_, _) => EventRecords(s, Moved(s, m));
    case EventGone(_) => EventRecords(s, Moved(s, m));
    case Acts(t) =>
      match s.threads[t]
      case Book(_) => BookRecords(s, t);
      case Cancel(_) => CancelRecords(s, t);
      case Create(_, _, _, _) => CreateRecords(s, t);
      case Release(_, _) => ReleaseRecords(s, t);
  }

  // ---------------------------------------------------------------------------
  // A seat that will stay booked though nobody claims it
  // ---------------------------------------------------------------------------

  /** Thread `t` is cancelling booking `b` and does not know of seat `y`. */
  ghost predicate CancelsWithout(s: State, t: Tid, b: Id, y: Id) {
    && t in s.threads && s.threads[t].Cancel? && s.threads[t].c.id == b
    && s.threads[t].c.pc in {CnSeatLock, CnRead, CnFree, CnMark} && y !in s.threads[t].c.seats
  }

  /** Thread `t` is filling in booking `b`, and seat `y` belongs to it. */
  ghost predicate Books(s: State, t: Tid, b: Id, y: Id) {
    t in s.threads && Recorder(s.threads[t]) == Some(b) && y in s.threads[t].b.seats
  }

  ghost predicate GoingOrGone(s: State, b: Id, y: Id) {
    b in s.bookings && (s.bookings[b].status == Cancelled || exists t :: CancelsWithout(s, t, b, y))
  }

  ghost predicate MarkedOrMarking(s: State, b: Id, y: Id) {
    y in s.seats && (s.seats[y].status == Booked || exists t :: Books(s, t, b, y))
  }

  ghost predicate NotOthers(s: State, b: Id, y: Id) {
    forall c: Id :: c != b ==> !Claims(s, c, y)
  }

  /** Booking `b` is cancelled or on its way there, and its seat `y` is booked or on its way there. */
  ghost predicate Doomed(s: State, b: Id, y: Id) {
    GoingOrGone(s, b, y) && MarkedOrMarking(s, b, y) && NotOthers(s, b, y)
  }

  /** Thread `t`'s step to `th` keeps what it does for booking `b` and seat `y`, other threads are as they were. */
  lemma DoomedSame(s: State, s': State, b: Id, y: Id, t: Tid, th: Thread)
    requires Doomed(s, b, y) && s'.threads == s.threads[t := th]
    requires s'.rows == s.rows && b in s'.bookings && y in s'.seats
    requires s.bookings[b].status == Cancelled ==> s'.bookings[b].status == Cancelled
    requires s.seats[y].status == Booked ==> s'.seats[y].status == Booked
    requires CancelsWithout(s, t, b, y) ==> CancelsWithout(s', t, b, y) || s'.bookings[b].status == Cancelled
    requires Books(s, t, b, y) ==> Books(s', t, b, y) || s'.seats[y].status == Booked
    requires forall c :: c in s'.bookings && s'.bookings[c].status == Confirmed && y in RowsOf(s'.rows, c) ==>
               c in s.bookings && s.bookings[c].status == Confirmed
    ensures Doomed(s', b, y)
  {
    if s'.bookings[b].status != Cancelled {
      var u :| CancelsWithout(s, u, b, y);
      assert CancelsWithout(s', u, b, y);
    }
    if s'.seats[y].status != Booked {
      var u :| Books(s, u, b, y);
      assert Books(s', u, b, y);
    }
    forall c: Id | c != b ensures !Claims(s', c, y) {
      assert !Claims(s, c, y);
    }
  }

  /** A booking thread's seat is locked by it, and not yet marked before its turn. */
  lemma BooksHolds(s: State, t: Tid, b: Id, y: Id)
    requires Inv(s) && Books(s, t, b, y)
    ensures Holds(s.threads[t], SeatRow(y)) && y in s.seats
  {
    var j := s.threads[t].b;
    assert ThreadOk(s, s.threads[t]);
    var k :| 0 <= k < |j.seats| && j.seats[k] == y;
    assert SeatOk(s, j, k);
  }

  /** A thread that inserts a row for seat `y` books for `b` itself. */
  lemma RowIsOwn(s: State, t: Tid, b: Id, y: Id)
    requires Inv(s) && Doomed(s, b, y) && t in s.threads && s.threads[t].Book? && s.threads[t].b.pc == BkRow
    requires s.threads[t].b.i < |s.threads[t].b.seats| && s.threads[t].b.seats[s.threads[t].b.i] == y
    ensures s.threads[t].b.id == b
  {
    var j := s.threads[t].b;
    assert ThreadOk(s, s.threads[t]) && SeatOk(s, j, j.i);
    assert Holds(s.threads[t], SeatRow(y));
    var u :| Books(s, u, b, y);
    BooksHolds(s, u, b, y);
    OneHolder(s, t, u, SeatRow(y));
  }

  lemma RowDoomed(s: State, t: Tid, b: Id, y: Id)
    requires Inv(s) && Doomed(s, b, y) && t in s.threads && s.threads[t].Book? && s.threads[t].b.pc == BkRow
    requires s.threads[t].b.i < |s.threads[t].b.seats|
    ensures Doomed(ActBook(s, t), b, y)
  {
    var s', j := ActBook(s, t), s.threads[t].b;
    var r := Junction(j.id, j.seats[j.i]);
    if s'.bookings[b].status != Cancelled {
      var u :| CancelsWithout(s, u, b, y);
      assert CancelsWithout(s', u, b, y);
    }
    if s'.seats[y].status != Booked {
      var u :| Books(s, u, b, y);
      assert Books(s', u, b, y);
    }
    if r.seat == y {
      RowIsOwn(s, t, b, y);
    }
    forall c: Id | c != b ensures !Claims(s', c, y) {
      RowsOfAppend(s.rows, r, c);
      assert !Claims(s, c, y);
    }
  }

  lemma CommitMarks(s: State, t: Tid, b: Id, y: Id)
    requires Inv(s) && Books(s, t, b, y) && s.threads[t].b.pc == BkCommit
    ensures y in s.seats && s.seats[y].status == Booked
  {
    var j := s.threads[t].b;
    assert ThreadOk(s, s.threads[t]);
    var k :| 0 <= k < |j.seats| && j.seats[k] == y;
    assert SeatOk(s, j, k);
  }

  lemma BookDoomed(s: State, t: Tid, b: Id, y: Id)
    requires Inv(s) && Doomed(s, b, y) && Enabled(s, t) && s.threads[t].Book?
    ensures Doomed(ActBook(s, t), b, y) == true
  {
    var s', j := ActBook(s, t), s.threads[t].b;
    assert ThreadOk(s, s.threads[t]);
    if j.pc == BkRow && j.i < |j.seats| {
      RowDoomed(s, t, b, y);
    } else if j.pc == BkCommit {
      if Books(s, t, b, y) {
        CommitMarks(s, t, b, y);
      }
      DoomedSame(s, s', b, y, t, s'.threads[t]);
    } else if j.pc == BkInsert {
      RowsExist(s, s.nextBooking);
      DoomedSame(s, s', b, y, t, s'.threads[t]);
    } else {
      PlainBook(s, t);
      PlainBooks(s, t, b, y);
      DoomedSame(s, s', b, y, t, s'.threads[t]);
    }
  }

  lemma PlainBooks(s: State, t: Tid, b: Id, y: Id)
    requires Inv(s) && Books(s, t, b, y) ==> Enabled(s, t)
    requires Inv(s) && Enabled(s, t) && s.threads[t].Book?
    requires var j := s.threads[t].b; j.pc !in {BkInsert, BkCommit} && (j.pc == BkRow ==> j.i >= |j.seats|)
    ensures Books(s, t, b, y) ==> Books(ActBook(s, t), t, b, y)
  {
    var j := s.threads[t].b;
    assert ThreadOk(s, s.threads[t]);
    if j.pc == BkRead || j.pc == BkMark {
      assert SeatOk(s, j, j.i);
    }
  }

  /** A cancellation that frees seat `y` cancels another booking: one that claims it. There is none. */
  lemma NeverFreed(s: State, t: Tid, b: Id, y: Id)
    requires Inv(s) && Doomed(s, b, y) && t in s.threads && s.threads[t].Cancel? && s.threads[t].c.pc == CnFree
    ensures s.threads[t].c.i < |s.threads[t].c.seats| && s.threads[t].c.seats[s.threads[t].c.i] != y
  {
    var j := s.threads[t].c;
    assert ThreadOk(s, s.threads[t]);
    if j.seats[j.i] == y {
      assert Claims(s, j.id, y);
      var u :| CancelsWithout(s, u, b, y);
      assert Holds(s.threads[u], BookingRow(b)) && Holds(s.threads[t], BookingRow(b));
      OneHolder(s, t, u, BookingRow(b));
    }
  }

  lemma CancelDoomed(s: State, t: Tid, b: Id, y: Id)
    requires Inv(s) && Doomed(s, b, y) && Enabled(s, t) && s.threads[t].Cancel?
    ensures Doomed(ActCancel(s, t), b, y) == true
  {
    var s' := ActCancel(s, t);
    PlainCancel(s, t);
    CancelBookings(s, t);
    CancelStatus(s, t, b, y);
    DoomedSame(s, s', b, y, t, s'.threads[t]);
  }

  lemma CancelStatus(s: State, t: Tid, b: Id, y: Id)
    requires Inv(s) && Doomed(s, b, y) && Enabled(s, t) && s.threads[t].Cancel?
    ensures var s' := ActCancel(s, t);
            && b in s'.bookings && (s.bookings[b].status == Cancelled ==> s'.bookings[b].status == Cancelled)
            && y in s'.seats && (s.seats[y].status == Booked ==> s'.seats[y].status == Booked)
            && (CancelsWithout(s, t, b, y) ==> CancelsWithout(s', t, b, y) || s'.bookings[b].status == Cancelled)
            && (forall c :: c in s'.bookings && s'.bookings[c].status == Confirmed ==> c in s.bookings && s.bookings[c].status == Confirmed)
  {
    CancelTables(s, t);
    CancelThread(s, t);
    StaysWithout(s, t, b, y);
    assert ThreadOk(s, s.threads[t]);
    if s.threads[t].c.pc == CnFree {
      NeverFreed(s, t, b, y);
      FreeShape(s, t);
    }
  }

  /** A cancellation that misses seat `y` goes on missing it until it marks its booking. */
  lemma StaysWithout(s: State, t: Tid, b: Id, y: Id)
    requires t in s.threads && s.threads[t].Cancel?
    ensures CancelsWithout(s, t, b, y) ==> CancelsWithout(ActCancel(s, t), t, b, y) || (s.threads[t].c.pc == CnMark && s.threads[t].c.id == b)
  {
  }

  lemma MoveDoomed(s: State, m: Move, b: Id, y: Id)
    requires Inv(s) && Doomed(s, b, y) && CanMove(s, m)
    ensures Doomed(Moved(s, m), b, y) == true
  {
    var s' := Moved(s, m);
    match m
    case Arrives(t, q) => ArriveDoomed(s, t, q, b, y);
    case EventSet(_, _) => EventDoomed(s, s', b, y);
    case EventGone(_) => EventDoomed(s, s', b, y);
    case Acts(t) =>
      match s.threads[t]
      case Book(_) => BookDoomed(s, t, b, y);
      case Cancel(_) => CancelDoomed(s, t, b, y);
      case Create(_, _, _, _) => CreateDoomed(s, t, b, y);
      case Release(_, _) => DoomedSame(s, s', b, y, t, s'.threads[t]);
  }

  lemma ArriveDoomed(s: State, t: Tid, q: Request, b: Id, y: Id)
    requires Inv(s) && Doomed(s, b, y) && t !in s.threads
    ensures Doomed(Arrive(s, t, q), b, y) == true
  {
    DoomedSame(s, Arrive(s, t, q), b, y, t, Start(q, s));
  }

  lemma CreateDoomed(s: State, t: Tid, b: Id, y: Id)
    requires Inv(s) && Doomed(s, b, y) && t in s.threads && s.threads[t].Create?
    ensures Doomed(ActCreate(s, t), b, y) == true
  {
    DoomedSame(s, ActCreate(s, t), b, y, t, ActCreate(s, t).threads[t]);
  }

  lemma EventDoomed(s: State, s': State, b: Id, y: Id)
    requires Doomed(s, b, y) && s' == s.(events := s'.events)
    ensures Doomed(s', b, y)
  {
    if s'.bookings[b].status != Cancelled {
      var u :| CancelsWithout(s, u, b, y);
      assert CancelsWithout(s', u, b, y);
    }
    if s'.seats[y].status != Booked {
      var u :| Books(s, u, b, y);
      assert Books(s', u, b, y);
    }
    forall c: Id | c != b ensures !Claims(s', c, y) {
      assert !Claims(s, c, y);
    }
  }

  // ---------------------------------------------------------------------------
  // How a seat gets there
  // ---------------------------------------------------------------------------

  /** An incomplete scan dooms the last seat of the booking that is being filled in. */
  lemma ScanDooms(s: State, t: Tid) returns (y: Id)
    requires Inv(s) && RecordsOk(s) && Enabled(s, t) && s.threads[t].Cancel? && s.threads[t].c.pc == CnScan
    requires !SeesAllRows(s, Acts(t))
    ensures Doomed(ActCancel(s, t), s.threads[t].c.id, y)
  {
    var s', j := ActCancel(s, t), s.threads[t].c;
    assert ThreadOk(s, s.threads[t]);
    RecordAt(s, j.id);
    var u :| u in s.threads && Recorder(s.threads[u]) == Some(j.id);
    var k := s.threads[u].b;
    y := LastMissing(s, u);
    SortedTake(s, j.id);
    assert CancelsWithout(s', t, j.id, y);
    assert Books(s', u, j.id, y);
    BooksHolds(s, u, j.id, y);
    ClaimsOnHeld(s, u, y);
    forall c: Id | c != j.id ensures !Claims(s', c, y) {
      assert Claims(s', c, y) ==> Claims(s, c, y);
    }
  }

  /** The last seat of a booking that has not got all its rows: no row, not marked. */
  lemma LastMissing(s: State, u: Tid) returns (y: Id)
    requires Inv(s) && u in s.threads && Recorder(s.threads[u]).Some?
    requires !AllRows(s, s.threads[u].b.id)
    ensures y in s.threads[u].b.seats && y !in RowsOf(s.rows, s.threads[u].b.id)
    ensures y in s.seats && s.seats[y].status == Available
  {
    var k := s.threads[u].b;
    assert ThreadOk(s, s.threads[u]);
    var n := |k.seats|;
    y := k.seats[n - 1];
    assert Rowed(k) < n by {
      if Rowed(k) == n {
        TakeAll(k.seats);
      }
    }
    assert SeatOk(s, k, n - 1);
    forall i | 0 <= i < Rowed(k) ensures k.seats[i] != y {
      assert k.seats[i] < k.seats[n - 1];
    }
  }

  lemma SortedTake(s: State, b: Id)
    requires TablesOk(s)
    ensures forall x :: x in Sorted(Take(RowsOf(s.rows, b), MAX_SEATS)) ==> x in RowsOf(s.rows, b)
  {
    var rows := RowsOf(s.rows, b);
    assert Ascending(rows) && Distinct(rows) && Take(rows, MAX_SEATS) == rows;
    SortedAscends(rows);
  }

  // ---------------------------------------------------------------------------
  // Exactly when the seats come out right
  // ---------------------------------------------------------------------------

  /** Every seat is booked if and only if one confirmed booking, and no more, claims it. */
  ghost predicate SeatsRight(s: State) {
    forall x :: x in s.seats ==> SeatRight(s, x)
  }

  ghost predicate SeatRight(s: State, x: Id)
    requires x in s.seats
  {
    s.seats[x].status == Booked <==> exists b :: Claims(s, b, x) && forall c :: Claims(s, c, x) ==> c == b
  }

  lemma {:induction false} DoomedStays(s: State, ms: seq<Move>, b: Id, y: Id)
    requires Inv(s) && Runs(s, ms) && Doomed(s, b, y)
    ensures Inv(After(s, ms)) && Doomed(After(s, ms), b, y)
    decreases |ms|
  {
    if ms != [] {
      MoveInv(s, ms[0]);
      MoveDoomed(s, ms[0], b, y);
      DoomedStays(Moved(s, ms[0]), ms[1..], b, y);
    }
  }

  /** One incomplete scan, and at the end some seat is doomed. */
  lemma {:induction false} IncompleteDooms(s: State, ms: seq<Move>) returns (b: Id, y: Id)
    requires Inv(s) && RecordsOk(s) && Runs(s, ms) && !ScansComplete(s, ms)
    ensures Inv(After(s, ms)) && Doomed(After(s, ms), b, y)
    decreases |ms|
  {
    var m := ms[0];
    MoveInv(s, m);
    if SeesAllRows(s, m) {
      MoveRecords(s, m);
      b, y := IncompleteDooms(Moved(s, m), ms[1..]);
    } else {
      b := s.threads[m.t].c.id;
      y := ScanDooms(s, m.t);
      DoomedStays(Moved(s, m), ms[1..], b, y);
    }
  }

  /** At rest a doomed seat is booked and nobody claims it. */
  lemma DoomedAtRest(s: State, b: Id, y: Id)
    requires Doomed(s, b, y) && Quiet(s)
    ensures y in s.seats && s.seats[y].status == Booked && forall c :: !Claims(s, c, y)
  {
    forall t ensures !CancelsWithout(s, t, b, y) && !Books(s, t, b, y) {}
    forall c: Id ensures !Claims(s, c, y) {}
  }

  lemma InitialRecords()
    ensures RecordsOk(Initial)
  {
  }

  /** After any run that comes to rest, every seat is right if and only if every cancellation found all the rows of its
      booking. */
  lemma SeatsRightExactly(ms: seq<Move>)
    requires Runs(Initial, ms) && Quiet(After(Initial, ms))
    ensures SeatsRight(After(Initial, ms)) <==> ScansComplete(Initial, ms)
  {
    var s := After(Initial, ms);
    InitialStrong();
    InitialRecords();
    if ScansComplete(Initial, ms) {
      RunsRefine(Initial, ms);
      forall x | x in s.seats ensures SeatRight(s, x) {
        QuietSeats(s, x);
      }
    } else {
      var b, y := IncompleteDooms(Initial, ms);
      DoomedAtRest(s, b, y);
      assert !SeatRight(s, y);
    }
  }

  // ---------------------------------------------------------------------------
  // A run that goes wrong
  // ---------------------------------------------------------------------------

  /** From `s` the moves lead to `s'`. */
  ghost predicate Leads(s: State, ms: seq<Move>, s': State) {
    Runs(s, ms) && After(s, ms) == s'
  }

  lemma Step(s: State, m: Move, s': State)
    requires CanMove(s, m) && Moved(s, m) == s'
    ensures Leads(s, [m], s') == true
  {
    OneTail(m);
    assert Runs(s', []) && After(s', []) == s';
  }

  lemma {:induction false} Then(s: State, a: seq<Move>, s': State, b: seq<Move>, s'': State)
    requires Leads(s, a, s') == true && Leads(s', b, s'') == true
    ensures Leads(s, a + b, s'') == true
    decreases |a|
  {
    if a == [] {
      AppendNothing(b);
    } else {
      TailAppend(a, b);
      Then(Moved(s, a[0]), a[1..], s', b, s'');
    }
  }

  /** Thread `t` steps from state `i` of the list to the next. */
  ghost predicate StepAt(states: nat -> State, t: Tid, i: nat) {
    Enabled(states(i), t) && Act(states(i), t) == states(i + 1)
  }

  lemma {:induction false} StepsLead(states: nat -> State, t: Tid, n: nat) returns (ms: seq<Move>)
    requires forall i :: 0 <= i < n ==> StepAt(states, t, i) == true
    ensures Leads(states(0), ms, states(n)) == true
    decreases n
  {
    if n == 0 {
      ms := [];
    } else {
      var front := StepsLead(states, t, n - 1);
      assert StepAt(states, t, n - 1) == true;
      Step(states(n - 1), Acts(t), states(n));
      Then(states(0), front, states(n - 1), [Acts(t)], states(n));
      ms := front + [Acts(t)];
    }
  }

  /** Event 1 has one seat, and its creator is done. */
  const OneSeat := State(map[1 := true], map[1 := Seat(1, Available, 0)], map[], [], map[], map[1 := Done(Ok)], 2, 2, 1)

  const TheBooking := Booking(7, 1, 1, Confirmed)

  ghost function Booker(pc: BookPc, i: nat, id: Id, buf: Seat): Thread {
    Book(BookJob(7, 1, [1], pc, i, id, buf))
  }

  ghost function Canceller(pc: CancelPc, found: Booking): Thread {
    Cancel(CancelJob(1, 7, pc, found, [], 0, NoSeat))
  }

  /** User 7's booking 1 is in the table, its one junction row is not yet. */
  ghost function MidBooking(): State {
    OneSeat.(threads := map[1 := Done(Ok), 2 := Booker(BkRow, 0, 1, NoSeat)], locks := map[SeatRow(1) := 2],
             bookings := map[1 := TheBooking], nextBooking := 2)
  }

  /** The booking is cancelled, and the thread that books does not know. */
  ghost function Overtaken(): State {
    MidBooking().(threads := MidBooking().threads[3 := Done(Ok)], bookings := map[1 := TheBooking.(status := Cancelled)])
  }

  /** At rest: seat 1 is booked, booking 1 is cancelled. */
  ghost function WrongAtRest(): State {
    State(map[1 := true], map[1 := Seat(1, Booked, 7)], map[1 := TheBooking.(status := Cancelled)], [Junction(1, 1)], map[],
          map[1 := Done(Ok), 2 := Done(Ok), 3 := Done(Ok)], 2, 2, 2)
  }

  lemma FewActive(s: State)
    requires |s.threads| < MAX_TXNS
    ensures |Active(s)| < MAX_TXNS
  {
    SubsetSize(Active(s), s.threads.Keys);
  }

  lemma SortOne(x: Id)
    ensures Sorted([x]) == [x]
  {
    OneTail(x);
    assert Sorted([]) == [];
    AppendNothing([x]);
  }

  ghost function CreateState(i: nat): State {
    var s := State(map[1 := true], map[], map[], [], map[], map[], 2, 1, 1);
    if i == 0 then s.(threads := map[1 := Create(1, 1, 1, 0)])
    else if i == 1 then s.(threads := map[1 := Create(1, 1, 1, 1)], seats := map[1 := Seat(1, Available, 0)], nextSeat := 2)
    else OneSeat
  }

  lemma CreateOneSeat() returns (ms: seq<Move>)
    ensures Leads(Initial, ms, OneSeat) == true
  {
    Step(Initial, Arrives(1, CreateReq(1, 1)), CreateState(0));
    assert StepAt(CreateState, 1, 0) == true && StepAt(CreateState, 1, 1) == true;
    ms := StepsLead(CreateState, 1, 2);
    Then(Initial, [Arrives(1, CreateReq(1, 1))], CreateState(0), ms, OneSeat);
    ms := [Arrives(1, CreateReq(1, 1))] + ms;
  }

  ghost function Booking2(th: Thread, locked: bool): State {
    OneSeat.(threads := map[1 := Done(Ok), 2 := th], locks := if locked then map[SeatRow(1) := 2] else map[])
  }

  ghost function BookState(i: nat): State {
    if i == 0 then Booking2(Booker(BkEvent, 0, 0, NoSeat), false)
    else if i == 1 then Booking2(Booker(BkBegin, 0, 0, NoSeat), false)
    else if i == 2 then Booking2(Booker(BkLock, 0, 0, NoSeat), false)
    else if i == 3 then Booking2(Booker(BkLock, 1, 0, NoSeat), true)
    else if i == 4 then Booking2(Booker(BkCheck, 0, 0, NoSeat), true)
    else if i == 5 then Booking2(Booker(BkCheck, 1, 0, NoSeat), true)
    else if i == 6 then Booking2(Booker(BkInsert, 1, 0, NoSeat), true)
    else MidBooking()
  }

  lemma BookStepA(i: nat)
    requires 0 <= i < 2
    ensures StepAt(BookState, 2, i) == true
  {
    FewActive(BookState(1));
    SortOne(1);
    if i == 0 {
      assert ActBook(BookState(0), 2).threads == BookState(1).threads;
    } else {
      assert ActBook(BookState(1), 2).threads == BookState(2).threads;
    }
  }

  lemma BookStepB(i: nat)
    requires 2 <= i < 4
    ensures StepAt(BookState, 2, i) == true
  {
    if i == 2 {
      assert ActBook(BookState(2), 2).threads == BookState(3).threads && ActBook(BookState(2), 2).locks == BookState(3).locks;
    } else {
      assert ActBook(BookState(3), 2).threads == BookState(4).threads;
    }
  }

  lemma BookStepC(i: nat)
    requires 4 <= i < 6
    ensures StepAt(BookState, 2, i) == true
  {
    if i == 4 {
      assert ActBook(BookState(4), 2).threads == BookState(5).threads;
    } else {
      assert ActBook(BookState(5), 2).threads == BookState(6).threads;
    }
  }

  lemma BookStepD(i: nat)
    requires 6 <= i < 7
    ensures StepAt(BookState, 2, i) == true
  {
    assert ActBook(BookState(6), 2).threads == BookState(7).threads && ActBook(BookState(6), 2).bookings == BookState(7).bookings;
  }

  lemma BookStep(i: nat)
    requires i < 7
    ensures StepAt(BookState, 2, i) == true
  {
    if i < 2 {
      BookStepA(i);
    } else if i < 4 {
      BookStepB(i);
    } else if i < 6 {
      BookStepC(i);
    } else {
      BookStepD(i);
    }
  }

  lemma BookUpToInsert() returns (ms: seq<Move>)
    ensures Leads(OneSeat, ms, MidBooking()) == true
  {
    var m := Arrives(2, BookReq(7, 1, [1]));
    assert Arrive(OneSeat, 2, m.q).threads == BookState(0).threads;
    Step(OneSeat, m, BookState(0));
    forall i | 0 <= i < 7 ensures StepAt(BookState, 2, i) == true {
      BookStep(i);
    }
    ms := StepsLead(BookState, 2, 7);
    Then(OneSeat, [m], BookState(0), ms, MidBooking());
    ms := [m] + ms;
  }

  ghost function Cancelling3(th: Thread, locked: bool, bk: Booking): State {
    MidBooking().(threads := MidBooking().threads[3 := th], bookings := map[1 := bk],
                  locks := if locked then map[SeatRow(1) := 2, BookingRow(1) := 3] else map[SeatRow(1) := 2])
  }

  ghost function CancelState(i: nat): State {
    var gone := TheBooking.(status := Cancelled);
    if i == 0 then Cancelling3(Canceller(CnBegin, NoBooking), false, TheBooking)
    else if i == 1 then Cancelling3(Canceller(CnLock, NoBooking), false, TheBooking)
    else if i == 2 then Cancelling3(Canceller(CnFind, NoBooking), true, TheBooking)
    else if i == 3 then Cancelling3(Canceller(CnScan, TheBooking), true, TheBooking)
    else if i == 4 then Cancelling3(Canceller(CnSeatLock, TheBooking), true, TheBooking)
    else if i == 5 then Cancelling3(Canceller(CnMark, TheBooking), true, TheBooking)
    else if i == 6 then Cancelling3(Canceller(CnCommit, TheBooking), true, gone)
    else if i == 7 then Cancelling3(Release([BookingRow(1)], Ok), true, gone)
    else if i == 8 then Cancelling3(Release([], Ok), false, gone)
    else Overtaken()
  }

  lemma CancelStepA(i: nat)
    requires 0 <= i < 2
    ensures StepAt(CancelState, 3, i) == true
  {
    FewActive(CancelState(0));
    if i == 0 {
      assert ActCancel(CancelState(0), 3).threads == CancelState(1).threads;
    } else {
      assert ActCancel(CancelState(1), 3).threads == CancelState(2).threads && ActCancel(CancelState(1), 3).locks == CancelState(2).locks;
    }
  }

  lemma CancelStepB(i: nat)
    requires 2 <= i < 4
    ensures StepAt(CancelState, 3, i) == true
  {
    if i == 2 {
      assert ActCancel(CancelState(2), 3).threads == CancelState(3).threads;
    } else {
      assert ActCancel(CancelState(3), 3).threads == CancelState(4).threads;
    }
  }

  lemma CancelStepC(i: nat)
    requires 4 <= i < 6
    ensures StepAt(CancelState, 3, i) == true
  {
    if i == 4 {
      assert ActCancel(CancelState(4), 3).threads == CancelState(5).threads;
    } else {
      assert ActCancel(CancelState(5), 3).threads == CancelState(6).threads && ActCancel(CancelState(5), 3).bookings == CancelState(6).bookings;
    }
  }

  lemma CancelStepD(i: nat)
    requires 6 <= i < 7
    ensures StepAt(CancelState, 3, i) == true
  {
    assert CancelHeld(CancelJob(1, 7, CnCommit, TheBooking, [], 0, NoSeat), 0) == [BookingRow(1)];
    assert ActCancel(CancelState(6), 3).threads == CancelState(7).threads;
  }

  lemma CancelStepE(i: nat)
    requires 7 <= i < 9
    ensures StepAt(CancelState, 3, i) == true
  {
    OneTail(BookingRow(1));
    if i == 7 {
      assert ActRelease(CancelState(7), 3).threads == CancelState(8).threads && ActRelease(CancelState(7), 3).locks == CancelState(8).locks;
    } else {
      assert ActRelease(CancelState(8), 3).threads == CancelState(9).threads;
    }
  }

  lemma CancelStep(i: nat)
    requires i < 9
    ensures StepAt(CancelState, 3, i) == true
  {
    if i < 2 {
      CancelStepA(i);
    } else if i < 4 {
      CancelStepB(i);
    } else if i < 6 {
      CancelStepC(i);
    } else if i < 7 {
      CancelStepD(i);
    } else {
      CancelStepE(i);
    }
  }

  lemma CancelOvertakes() returns (ms: seq<Move>)
    ensures Leads(MidBooking(), ms, Overtaken()) == true
  {
    var m := Arrives(3, CancelReq(1, 7));
    assert Arrive(MidBooking(), 3, m.q).threads == CancelState(0).threads;
    Step(MidBooking(), m, CancelState(0));
    forall i | 0 <= i < 9 ensures StepAt(CancelState, 3, i) == true {
      CancelStep(i);
    }
    ms := StepsLead(CancelState, 3, 9);
    Then(MidBooking(), [m], CancelState(0), ms, Overtaken());
    ms := [m] + ms;
  }

  ghost function Finishing(th: Thread, booked: bool, locked: bool): State {
    WrongAtRest().(threads := map[1 := Done(Ok), 2 := th, 3 := Done(Ok)],
                   seats := map[1 := if booked then Seat(1, Booked, 7) else Seat(1, Available, 0)],
                   locks := if locked then map[SeatRow(1) := 2] else map[])
  }

  ghost function FinishState(i: nat): State {
    var v := Seat(1, Booked, 7);
    if i == 0 then Overtaken()
    else if i == 1 then Finishing(Booker(BkRead, 0, 1, NoSeat), false, true)
    else if i == 2 then Finishing(Booker(BkMark, 0, 1, v), false, true)
    else if i == 3 then Finishing(Booker(BkRow, 1, 1, v), true, true)
    else if i == 4 then Finishing(Booker(BkCommit, 1, 1, v), true, true)
    else if i == 5 then Finishing(Release([SeatRow(1)], Ok), true, true)
    else if i == 6 then Finishing(Release([], Ok), true, false)
    else WrongAtRest()
  }

  lemma FinishStepA(i: nat)
    requires 0 <= i < 2
    ensures StepAt(FinishState, 2, i) == true
  {
    AppendNothing([Junction(1, 1)]);
    if i == 0 {
      assert ActBook(FinishState(0), 2).threads == FinishState(1).threads;
    } else {
      assert ActBook(FinishState(1), 2).threads == FinishState(2).threads;
    }
  }

  lemma FinishStepB(i: nat)
    requires 2 <= i < 4
    ensures StepAt(FinishState, 2, i) == true
  {
    if i == 2 {
      assert ActBook(FinishState(2), 2).threads == FinishState(3).threads && ActBook(FinishState(2), 2).seats == FinishState(3).seats;
    } else {
      assert ActBook(FinishState(3), 2).threads == FinishState(4).threads;
    }
  }

  lemma FinishStepC(i: nat)
    requires 4 <= i < 5
    ensures StepAt(FinishState, 2, i) == true
  {
    assert Seats([1]) == [SeatRow(1)];
    assert ActBook(FinishState(4), 2).threads == FinishState(5).threads;
  }

  lemma FinishStepD(i: nat)
    requires 5 <= i < 7
    ensures StepAt(FinishState, 2, i) == true
  {
    OneTail(SeatRow(1));
    if i == 5 {
      assert ActRelease(FinishState(5), 2).threads == FinishState(6).threads && ActRelease(FinishState(5), 2).locks == FinishState(6).locks;
    } else {
      assert ActRelease(FinishState(6), 2).threads == FinishState(7).threads;
    }
  }

  lemma FinishStep(i: nat)
    requires i < 7
    ensures StepAt(FinishState, 2, i) == true
  {
    if i < 2 {
      FinishStepA(i);
    } else if i < 4 {
      FinishStepB(i);
    } else if i < 5 {
      FinishStepC(i);
    } else {
      FinishStepD(i);
    }
  }

  lemma BookFinishes() returns (ms: seq<Move>)
    ensures Leads(Overtaken(), ms, WrongAtRest()) == true
  {
    forall i | 0 <= i < 7 ensures StepAt(FinishState, 2, i) == true {
      FinishStep(i);
    }
    ms := StepsLead(FinishState, 2, 7);
  }

  /** One seat, one booking, and a cancellation that overtakes it: everyone succeeds, and the seat is booked for nobody. */
  lemma RaceGoesWrong() returns (ms: seq<Move>)
    ensures Runs(Initial, ms) && Quiet(After(Initial, ms))
    ensures var s := After(Initial, ms);
            && s.threads == map[1 := Done(Ok), 2 := Done(Ok), 3 := Done(Ok)]
            && s.seats == map[1 := Seat(1, Booked, 7)] && s.bookings == map[1 := Booking(7, 1, 1, Cancelled)]
            && !SeatsRight(s)
    ensures !ScansComplete(Initial, ms)
  {
    var a := CreateOneSeat();
    var b := BookUpToInsert();
    var c := CancelOvertakes();
    var d := BookFinishes();
    Then(Initial, a, OneSeat, b, MidBooking());
    Then(Initial, a + b, MidBooking(), c, Overtaken());
    Then(Initial, a + b + c, Overtaken(), d, WrongAtRest());
    ms := a + b + c + d;
    AtRestWrong();
    SeatsRightExactly(ms);
  }

  lemma AtRestWrong()
    ensures Quiet(WrongAtRest()) && !SeatsRight(WrongAtRest())
  {
    var s := WrongAtRest();
    assert 1 in s.seats && forall b :: !Claims(s, b, 1);
    assert !SeatRight(s, 1);
  }
}
