// Seat conservation: at rest, the number of booked seats reports.c counts for an event is the sum of seat_count over
// the event's confirmed bookings, for every event, if and only if every cancellation found all the rows of its booking.
module BookingSeats {
  import opened BookingModel
  import opened BookingSafety
  import opened BookingRefinement
  import opened BookingRace
  import opened Common

  const REPORT_MAX := 2600

  // ---------------------------------------------------------------------------
  // Counting claims
  // ---------------------------------------------------------------------------

  ghost function BookedSeats(seats: map<Id, Seat>, e: Id): set<Id> {
    set x | x in seats && seats[x].event == e && seats[x].status == Booked
  }

  ghost function ConfirmedIn(bookings: map<Id, Booking>, e: Id): set<Id> {
    set b | b in bookings && bookings[b].status == Confirmed && bookings[b].event == e
  }

  /** The sum of seat_count over bookings `bs`. */
  ghost function SeatSum(bookings: map<Id, Booking>, bs: set<Id>): nat
    requires forall b :: b in bs ==> b in bookings
    decreases |bs|
  {
    if bs == {} then 0 else
      var b :| b in bs;
      bookings[b].seatCount + SeatSum(bookings, bs - {b})
  }

  ghost function SeatSet(s: seq<Id>): set<Id> {
    set x | x in s
  }

  /** The seats that bookings `bs` have rows for. */
  ghost function RowSeats(s: State, bs: set<Id>): set<Id> {
    set b, x | b in bs && x in RowsOf(s.rows, b) :: x
  }

  lemma {:induction false} DistinctSize(s: seq<Id>)
    requires Distinct(s)
    ensures |SeatSet(s)| == |s|
    decreases |s|
  {
    if s != [] {
      var rest := s[1..];
      assert Distinct(rest) by {
        assert forall i :: 0 <= i < |rest| ==> rest[i] == s[i + 1];
      }
      DistinctSize(rest);
      assert s[0] !in rest;
      assert SeatSet(s) == SeatSet(rest) + {s[0]};
    } else {
      assert SeatSet(s) == {};
    }
  }

  /** A state at rest, after any run. */
  ghost predicate AtRest(s: State) {
    Inv(s) && RecordsOk(s) && Quiet(s)
  }

  /** At rest a booking has a row for each seat it counts, and a claimed seat is booked. */
  lemma RestRecord(s: State, b: Id)
    requires AtRest(s) && b in s.bookings
    ensures |SeatSet(RowsOf(s.rows, b))| == s.bookings[b].seatCount
    ensures forall x :: x in RowsOf(s.rows, b) ==> x in s.seats && s.seats[x].event == s.bookings[b].event
    ensures forall x :: Claims(s, b, x) ==> s.seats[x].status == Booked
  {
    RecordAt(s, b);
    QuietView(s);
    assert !InFlight(s, b);
    assert Ascending(RowsOf(s.rows, b));
    DistinctSize(RowsOf(s.rows, b));
    forall x | Claims(s, b, x) ensures s.seats[x].status == Booked {
      assert Guarded(s, b, x);
    }
  }

  /** Confirmed bookings share no seat, so their rows add up. */
  lemma {:induction false} RowsAddUp(s: State, bs: set<Id>)
    requires AtRest(s) && forall b :: b in bs ==> b in s.bookings && s.bookings[b].status == Confirmed
    ensures |RowSeats(s, bs)| == SeatSum(s.bookings, bs)
    decreases |bs|
  {
    if bs == {} {
      assert RowSeats(s, bs) == {};
    } else {
      var b :| b in bs && SeatSum(s.bookings, bs) == s.bookings[b].seatCount + SeatSum(s.bookings, bs - {b});
      RowsAddUp(s, bs - {b});
      RestRecord(s, b);
      OneMore(s, bs, b);
    }
  }

  lemma OneMore(s: State, bs: set<Id>, b: Id)
    requires Inv(s) && b in bs && forall c :: c in bs ==> c in s.bookings && s.bookings[c].status == Confirmed
    ensures |RowSeats(s, bs)| == |SeatSet(RowsOf(s.rows, b))| + |RowSeats(s, bs - {b})|
  {
    var mine, others := SeatSet(RowsOf(s.rows, b)), RowSeats(s, bs - {b});
    forall x | x in mine ensures x !in others {
      assert Claims(s, b, x);
      forall c | c in bs - {b} ensures x !in RowsOf(s.rows, c) {
        assert !Claims(s, c, x);
      }
    }
    assert RowSeats(s, bs) == mine + others;
  }

  /** At rest an event has at least as many booked seats as its confirmed bookings count, and exactly as many if and only
      if every one of its booked seats is claimed. */
  lemma EventBalances(s: State, e: Id)
    requires AtRest(s)
    ensures |BookedSeats(s.seats, e)| >= SeatSum(s.bookings, ConfirmedIn(s.bookings, e))
    ensures |BookedSeats(s.seats, e)| == SeatSum(s.bookings, ConfirmedIn(s.bookings, e))
       <==> forall x :: x in BookedSeats(s.seats, e) ==> exists b :: Claims(s, b, x)
  {
    var booked, claimed := BookedSeats(s.seats, e), RowSeats(s, ConfirmedIn(s.bookings, e));
    RowsAddUp(s, ConfirmedIn(s.bookings, e));
    forall x ensures x in claimed <==> x in s.seats && s.seats[x].event == e && exists b :: Claims(s, b, x) {
      ClaimedIn(s, e, x);
    }
    forall x | x in claimed ensures x in booked {
      var b :| Claims(s, b, x);
      RestRecord(s, b);
    }
    SubsetSize(claimed, booked);
    if |claimed| == |booked| {
      SameSize(claimed, booked);
    }
    if forall x :: x in booked ==> exists b :: Claims(s, b, x) {
      assert booked == claimed;
    }
  }

  lemma ClaimedIn(s: State, e: Id, x: Id)
    requires AtRest(s)
    ensures x in RowSeats(s, ConfirmedIn(s.bookings, e)) <==> x in s.seats && s.seats[x].event == e && exists b :: Claims(s, b, x)
  {
    if x in RowSeats(s, ConfirmedIn(s.bookings, e)) {
      var b :| b in ConfirmedIn(s.bookings, e) && x in RowsOf(s.rows, b);
      RestRecord(s, b);
      assert Claims(s, b, x);
    }
    if x in s.seats && s.seats[x].event == e && exists b :: Claims(s, b, x) {
      var b :| Claims(s, b, x);
      RestRecord(s, b);
      assert b in ConfirmedIn(s.bookings, e);
    }
  }

  lemma SameSize<T>(a: set<T>, b: set<T>)
    requires a <= b && |a| == |b|
    ensures a == b
  {
    if a != b {
      var x :| x in b && x !in a;
      SubsetSize(a, b - {x});
    }
  }

  // ---------------------------------------------------------------------------
  // No event outgrows the report's buffer
  // ---------------------------------------------------------------------------

  ghost function SeatsOf(seats: map<Id, Seat>, e: Id): set<Id> {
    set x | x in seats && seats[x].event == e
  }

  ghost predicate Creates(s: State, t: Tid, e: Id) {
    t in s.threads && s.threads[t].Create? && s.threads[t].event == e
  }

  /** Every event's grid stays within its rows and columns, and only one thread fills it. */
  ghost predicate GridsOk(s: State) {
    && (forall t: Tid, e: Id :: Creates(s, t, e) ==>
          e < s.nextEvent && GoodGrid(s.threads[t].rows, s.threads[t].cols)
          && |SeatsOf(s.seats, e)| == s.threads[t].made <= s.threads[t].rows * s.threads[t].cols)
    && (forall t: Tid, u: Tid, e: Id :: Creates(s, t, e) && Creates(s, u, e) ==> t == u)
    && (forall e: Id :: |SeatsOf(s.seats, e)| <= REPORT_MAX)
    && (forall e: nat :: e >= s.nextEvent ==> SeatsOf(s.seats, e) == {})
  }

  lemma GridBound(rows: nat, cols: nat)
    requires GoodGrid(rows, cols)
    ensures rows * cols <= REPORT_MAX
  {
    assert rows * cols <= MAX_ROWS * cols;
  }

  /** A move that neither creates events nor seats keeps all grids. */
  lemma GridsSame(s: State, s': State)
    requires GridsOk(s) && s'.nextEvent == s.nextEvent
    requires forall x :: x in s.seats <==> x in s'.seats
    requires forall x :: x in s.seats ==> s'.seats[x].event == s.seats[x].event
    requires forall t, e :: Creates(s', t, e) ==> Creates(s, t, e) && s'.threads[t] == s.threads[t]
    ensures GridsOk(s')
  {
    forall e: Id ensures SeatsOf(s'.seats, e) == SeatsOf(s.seats, e) {}
  }

  lemma SeatAdds(seats: map<Id, Seat>, x: Id, v: Seat, e: Id)
    requires x !in seats
    ensures |SeatsOf(seats[x := v], e)| == |SeatsOf(seats, e)| + (if e == v.event then 1 else 0)
  {
    if e == v.event {
      assert SeatsOf(seats[x := v], e) == SeatsOf(seats, e) + {x};
    } else {
      assert SeatsOf(seats[x := v], e) == SeatsOf(seats, e);
    }
  }

  lemma GridGrows(s: State, t: Tid)
    requires TablesOk(s) && t in s.threads && s.threads[t].Create?
    requires s.threads[t].made < s.threads[t].rows * s.threads[t].cols
    ensures forall e: Id :: |SeatsOf(ActCreate(s, t).seats, e)| == |SeatsOf(s.seats, e)| + (if e == s.threads[t].event then 1 else 0)
  {
    forall e: Id
      ensures |SeatsOf(ActCreate(s, t).seats, e)| == |SeatsOf(s.seats, e)| + (if e == s.threads[t].event then 1 else 0)
    {
      SeatAdds(s.seats, s.nextSeat, Seat(s.threads[t].event, Available, 0), e);
    }
  }

  lemma CreateGrids(s: State, t: Tid)
    requires Inv(s) && GridsOk(s) && Enabled(s, t) && s.threads[t].Create?
    ensures GridsOk(ActCreate(s, t))
  {
    var s', th := ActCreate(s, t), s.threads[t];
    assert Creates(s, t, th.event);
    if th.made < th.rows * th.cols {
      GridBound(th.rows, th.cols);
      GridGrows(s, t);
      forall u, e | Creates(s', u, e) ensures Creates(s, u, e) && (u != t ==> e != th.event) {
        assert Creates(s, u, e);
      }
      forall e: Id | e >= s'.nextEvent ensures SeatsOf(s'.seats, e) == {} {
        assert |SeatsOf(s'.seats, e)| == 0;
      }
    } else {
      GridsSame(s, s');
    }
  }

  lemma BookKeepsEvents(s: State, t: Tid)
    requires Inv(s) && Enabled(s, t) && s.threads[t].Book?
    ensures var s' := ActBook(s, t);
            && s'.nextEvent == s.nextEvent && (forall x :: x in s.seats <==> x in s'.seats)
            && (forall x :: x in s.seats ==> s'.seats[x].event == s.seats[x].event)
  {
    var j := s.threads[t].b;
    assert ThreadOk(s, s.threads[t]);
    if j.pc == BkMark {
      assert SeatOk(s, j, j.i);
    }
  }

  lemma BookKeepsThreads(s: State, t: Tid)
    requires t in s.threads && s.threads[t].Book?
    ensures var s' := ActBook(s, t);
            t in s'.threads && s'.threads == s.threads[t := s'.threads[t]] && !s'.threads[t].Create?
  {
    match s.threads[t].b.pc {
      case BkEvent =>
      case BkBegin =>
      case BkLock =>
      case BkCheck =>
      case BkInsert =>
      case BkRow =>
      case BkRead =>
      case BkMark =>
      case BkCommit =>
    }
  }

  lemma BookGrids(s: State, t: Tid)
    requires Inv(s) && GridsOk(s) && Enabled(s, t) && s.threads[t].Book?
    ensures GridsOk(ActBook(s, t))
  {
    BookKeepsEvents(s, t);
    BookKeepsThreads(s, t);
    GridsSame(s, ActBook(s, t));
  }

  lemma CancelKeepsEvents(s: State, t: Tid)
    requires Inv(s) && Enabled(s, t) && s.threads[t].Cancel?
    ensures var s' := ActCancel(s, t);
            && s'.nextEvent == s.nextEvent && (forall x :: x in s.seats <==> x in s'.seats)
            && (forall x :: x in s.seats ==> s'.seats[x].event == s.seats[x].event)
  {
    CancelThread(s, t);
    if s.threads[t].c.pc == CnFree {
      assert ThreadOk(s, s.threads[t]);
    }
  }

  lemma CancelKeepsThreads(s: State, t: Tid)
    requires t in s.threads && s.threads[t].Cancel?
    ensures var s' := ActCancel(s, t);
            t in s'.threads && s'.threads == s.threads[t := s'.threads[t]] && !s'.threads[t].Create?
  {
    match s.threads[t].c.pc {
      case CnBegin =>
      case CnLock =>
      case CnFind =>
      case CnScan =>
      case CnSeatLock =>
      case CnRead =>
      case CnFree =>
      case CnMark =>
      case CnCommit =>
    }
  }

  lemma CancelGrids(s: State, t: Tid)
    requires Inv(s) && GridsOk(s) && Enabled(s, t) && s.threads[t].Cancel?
    ensures GridsOk(ActCancel(s, t))
  {
    CancelKeepsEvents(s, t);
    CancelKeepsThreads(s, t);
    GridsSame(s, ActCancel(s, t));
  }

  lemma ArriveGrids(s: State, t: Tid, q: Request)
    requires GridsOk(s) && t !in s.threads
    ensures GridsOk(Arrive(s, t, q))
  {
    var s' := Arrive(s, t, q);
    forall e: Id ensures SeatsOf(s'.seats, e) == SeatsOf(s.seats, e) {}
    forall u, e | Creates(s', u, e) ensures (u == t && e == s.nextEvent) || Creates(s, u, e) {}
  }

  lemma MoveGrids(s: State, m: Move)
    requires Inv(s) && GridsOk(s) && CanMove(s, m)
    ensures GridsOk(Moved(s, m)) == true
  {
    match m
    case Arrives(t, q) => ArriveGrids(s, t, q);
    case EventSet(_, _) => GridsSame(s, Moved(s, m));
    case EventGone(_) => GridsSame(s, Moved(s, m));
    case Acts(t) =>
      match s.threads[t]
      case Book(_) => BookGrids(s, t);
      case Cancel(_) => CancelGrids(s, t);
      case Create(_, _, _, _) => CreateGrids(s, t);
      case Release(_, _) => GridsSame(s, ActRelease(s, t));
  }

  lemma {:induction false} RunGrids(s: State, ms: seq<Move>)
    requires Inv(s) && GridsOk(s) && Runs(s, ms)
    ensures GridsOk(After(s, ms))
    decreases |ms|
  {
    if ms != [] {
      MoveInv(s, ms[0]);
      MoveGrids(s, ms[0]);
      RunGrids(Moved(s, ms[0]), ms[1..]);
    }
  }

  lemma InitialGrids()
    ensures GridsOk(Initial)
  {
    forall e: Id ensures SeatsOf(Initial.seats, e) == {} {}
  }

  // ---------------------------------------------------------------------------
  // The report
  // ---------------------------------------------------------------------------

  /** A scan of the seats table visits each seat once, in table order. */
  ghost predicate TableOrder(s: State, order: seq<Id>) {
    Distinct(order) && forall x :: x in order <==> x in s.seats
  }

  /** The rows table_scan collects for event `e`. */
  ghost function EventScan(s: State, order: seq<Id>, e: Id): seq<Id>
    requires forall x :: x in order ==> x in s.seats
  {
    if order == [] then []
    else (if s.seats[order[0]].event == e then [order[0]] else []) + EventScan(s, order[1..], e)
  }

  lemma {:induction false} ScanFinds(s: State, order: seq<Id>, e: Id)
    requires Distinct(order) && forall x :: x in order ==> x in s.seats
    ensures Distinct(EventScan(s, order, e))
    ensures forall x :: x in EventScan(s, order, e) <==> x in order && s.seats[x].event == e
    decreases |order|
  {
    if order != [] {
      var rest := order[1..];
      assert forall i :: 0 <= i < |rest| ==> rest[i] == order[i + 1];
      assert order[0] !in rest;
      ScanFinds(s, rest, e);
      assert forall x :: x in order <==> x == order[0] || x in rest;
    }
  }

  function CountBooked(seats: seq<Seat>): nat {
    if seats == [] then 0 else CountBooked(seats[..|seats| - 1]) + (if seats[|seats| - 1].status == Booked then 1 else 0)
  }

  /** The counting loop of reports_event_revenue. */
  method CountLoop(seats: array<Seat>, total: nat) returns (booked: nat)
    requires total <= seats.Length
    ensures booked == CountBooked(seats[..total])
  {
    booked := 0;
    var i := 0;
    while i < total
      invariant i <= total && booked == CountBooked(seats[..i])
    {
      assert seats[..i + 1][..i] == seats[..i];
      if seats[i].status == Booked {
        booked := booked + 1;
      }
      i := i + 1;
    }
  }

  ghost function Rows(s: State, ids: seq<Id>): seq<Seat>
    requires forall x :: x in ids ==> x in s.seats
  {
    seq(|ids|, i requires 0 <= i < |ids| => s.seats[ids[i]])
  }

  ghost function BookedAmong(s: State, ids: seq<Id>): set<Id> {
    set x | x in ids && x in s.seats && s.seats[x].status == Booked
  }

  lemma BookedAmongNext(s: State, front: seq<Id>, last: Id)
    requires last !in front && last in s.seats
    ensures BookedAmong(s, front + [last]) == BookedAmong(s, front) + (if s.seats[last].status == Booked then {last} else {})
    ensures last !in BookedAmong(s, front)
  {
  }

  lemma RowsNext(s: State, front: seq<Id>, last: Id)
    requires last in s.seats && forall x :: x in front ==> x in s.seats
    ensures CountBooked(Rows(s, front + [last])) == CountBooked(Rows(s, front)) + (if s.seats[last].status == Booked then 1 else 0)
  {
    var r := Rows(s, front + [last]);
    assert r[..|r| - 1] == Rows(s, front) && r[|r| - 1] == s.seats[last];
  }

  lemma {:induction false} CountIsSize(s: State, ids: seq<Id>)
    requires Distinct(ids) && forall x :: x in ids ==> x in s.seats
    ensures CountBooked(Rows(s, ids)) == |BookedAmong(s, ids)|
    decreases |ids|
  {
    if ids == [] {
      assert BookedAmong(s, ids) == {};
    } else {
      var front, last := ids[..|ids| - 1], ids[|ids| - 1];
      assert ids == front + [last] && last !in front;
      CountIsSize(s, front);
      BookedAmongNext(s, front, last);
      RowsNext(s, front, last);
    }
  }

  /** What the report says: the booked seats among the first 2600 the scan finds. */
  ghost function Reported(s: State, order: seq<Id>, e: Id): nat
    requires TableOrder(s, order)
  {
    ScanFinds(s, order, e);
    CountBooked(Rows(s, Take(EventScan(s, order, e), REPORT_MAX)))
  }

  lemma ScanFits(s: State, order: seq<Id>, e: Id)
    requires TableOrder(s, order) && |SeatsOf(s.seats, e)| <= REPORT_MAX
    ensures Take(EventScan(s, order, e), REPORT_MAX) == EventScan(s, order, e)
  {
    var ids := EventScan(s, order, e);
    ScanFinds(s, order, e);
    DistinctSize(ids);
    assert SeatSet(ids) == SeatsOf(s.seats, e);
  }

  /** Away from its buffer's limit the report counts the event's booked seats. */
  lemma ReportCounts(s: State, order: seq<Id>, e: Id)
    requires GridsOk(s) && TableOrder(s, order)
    ensures Reported(s, order, e) == |BookedSeats(s.seats, e)|
  {
    ScanFits(s, order, e);
    ScanFinds(s, order, e);
    var ids := EventScan(s, order, e);
    CountIsSize(s, ids);
    assert BookedAmong(s, ids) == BookedSeats(s.seats, e);
  }

  ghost predicate Balanced(s: State, order: seq<Id>, e: Id)
    requires TableOrder(s, order)
  {
    Reported(s, order, e) == SeatSum(s.bookings, ConfirmedIn(s.bookings, e))
  }

  lemma {:induction false} RunRecords(s: State, ms: seq<Move>)
    requires Inv(s) && RecordsOk(s) && Runs(s, ms)
    ensures Inv(After(s, ms)) && RecordsOk(After(s, ms))
    decreases |ms|
  {
    if ms != [] {
      MoveInv(s, ms[0]);
      MoveRecords(s, ms[0]);
      RunRecords(Moved(s, ms[0]), ms[1..]);
    }
  }

  /** Start empty, run in any interleaving, come to rest: the report's booked_seats is the sum of seat_count over the
      confirmed bookings, for every event, if and only if every cancellation found all the rows of its booking. */
  lemma BalancedExactly(ms: seq<Move>, order: seq<Id>)
    requires Runs(Initial, ms) && Quiet(After(Initial, ms)) && TableOrder(After(Initial, ms), order)
    ensures (forall e: Id :: Balanced(After(Initial, ms), order, e)) <==> ScansComplete(Initial, ms)
  {
    var s := After(Initial, ms);
    InitialStrong();
    InitialGrids();
    InitialRecords();
    RunGrids(Initial, ms);
    RunRecords(Initial, ms);
    forall e: Id
      ensures Balanced(s, order, e) <==> forall x :: x in BookedSeats(s.seats, e) ==> exists b :: Claims(s, b, x)
    {
      ReportCounts(s, order, e);
      EventBalances(s, e);
    }
    SeatsRightExactly(ms);
    if ScansComplete(Initial, ms) {
      forall e: Id, x | x in BookedSeats(s.seats, e) ensures exists b :: Claims(s, b, x) {
        assert SeatRight(s, x);
      }
    } else {
      var b, y := IncompleteDooms(Initial, ms);
      DoomedAtRest(s, b, y);
      assert y in BookedSeats(s.seats, s.seats[y].event);
      assert !Balanced(s, order, s.seats[y].event);
    }
  }

  /** The scan of order[i..] after `found` gives the same as the scan of order[i + 1..] after what is found then. */
  lemma ScanOne(s: State, order: seq<Id>, e: Id, i: nat, found: seq<Id>)
    requires i < |order| && forall x :: x in order ==> x in s.seats
    ensures var x := order[i];
            && x in s.seats
            && found + EventScan(s, order[i..], e)
               == (if s.seats[x].event == e then found + [x] else found) + EventScan(s, order[i + 1..], e)
  {
    DropHead(order, i);
    assert order[i] in order;
    if s.seats[order[i]].event == e {
      AppendAssoc(found, [order[i]], EventScan(s, order[i + 1..], e));
    } else {
      AppendNothing(EventScan(s, order[i + 1..], e));
    }
  }

  /** table_scan of the seats with the event's filter into a buffer of `max` rows. */
  method ScanEvent(s: State, order: seq<Id>, e: Id, buffer: array<Seat>) returns (total: nat, ghost found: seq<Id>)
    requires forall x :: x in order ==> x in s.seats
    modifies buffer
    ensures forall x :: x in found ==> x in s.seats
    ensures found == Take(EventScan(s, order, e), buffer.Length)
    ensures total == |found| <= buffer.Length && buffer[..total] == Rows(s, found)
  {
    total, found := 0, [];
    var i := 0;
    AppendNothing(EventScan(s, order, e));
    while i < |order| && total < buffer.Length
      invariant i <= |order| && total == |found| <= buffer.Length && forall x :: x in found ==> x in s.seats
      invariant found + EventScan(s, order[i..], e) == EventScan(s, order, e)
      invariant buffer[..total] == Rows(s, found)
      decreases |order| - i
    {
      ScanOne(s, order, e, i, found);
      if s.seats[order[i]].event == e {
        buffer[total] := s.seats[order[i]];
        assert buffer[..total + 1] == buffer[..total] + [buffer[total]];
        found := found + [order[i]];
        total := total + 1;
      }
      i := i + 1;
    }
    FoundAll(found, EventScan(s, order[i..], e), buffer.Length, i == |order|);
  }

  lemma FoundAll(found: seq<Id>, rest: seq<Id>, max: nat, done: bool)
    requires |found| <= max && (done ==> rest == []) && (!done ==> |found| == max)
    ensures found == Take(found + rest, max)
  {
  }

  /** The report as reports_event_revenue makes it: the event is looked up, then a scan into a buffer of 2600 rows, and the
      counting loop. */
  method EventReport(s: State, order: seq<Id>, e: Id) returns (booked: Option<nat>)
    requires TableOrder(s, order)
    ensures booked == if e in s.events then Some(Reported(s, order, e)) else None
  {
    if e !in s.events {
      return None;
    }
    var buffer := new Seat[REPORT_MAX](_ => NoSeat);
    var total;
    ghost var found;
    total, found := ScanEvent(s, order, e, buffer);
    var count := CountLoop(buffer, total);
    return Some(count);
  }

  // ---------------------------------------------------------------------------
  // The exchange sorts
  // ---------------------------------------------------------------------------

  lemma SameLeast(a: seq<Id>, b: seq<Id>)
    requires NonDescending(a) && NonDescending(b) && multiset(a) == multiset(b) && a != []
    ensures b != [] && a[0] == b[0]
  {
    assert a[0] in multiset(b);
    assert b[0] in multiset(a);
  }

  lemma BagTail(a: seq<Id>)
    requires a != []
    ensures multiset(a[1..]) == multiset(a) - multiset{a[0]}
  {
    assert a == [a[0]] + a[1..];
  }

  lemma {:induction false} SortedUnique(a: seq<Id>, b: seq<Id>)
    requires NonDescending(a) && NonDescending(b) && multiset(a) == multiset(b)
    ensures a == b
    decreases |a|
  {
    if a == [] {
      assert |multiset(b)| == |b|;
    } else {
      SameLeast(a, b);
      BagTail(a);
      BagTail(b);
      SortedUnique(a[1..], b[1..]);
      assert a == [a[0]] + a[1..] && b == [b[0]] + b[1..];
    }
  }

  ghost predicate SmallestFirst(s: seq<Id>, i: nat) {
    forall p, q :: 0 <= p < i && p < q < |s| ==> s[p] <= s[q]
  }

  /** No later element before `j` is smaller than element `i`. */
  ghost predicate LeastSoFar(s: seq<Id>, i: nat, j: nat)
    requires i < |s|
  {
    forall q :: i < q < j <= |s| ==> s[i] <= s[q]
  }

  lemma SwapKeeps(s: seq<Id>, i: nat, j: nat)
    requires i < j < |s| && SmallestFirst(s, i) && LeastSoFar(s, i, j) && s[i] > s[j]
    ensures var r := s[i := s[j]][j := s[i]];
            multiset(r) == multiset(s) && SmallestFirst(r, i) && LeastSoFar(r, i, j + 1)
  {
  }

  /** The inner loop: it brings the least of the remaining seats to position `i`. */
  method LeastTo(a: array<Id>, i: nat)
    requires i < a.Length && SmallestFirst(a[..], i)
    modifies a
    ensures multiset(a[..]) == multiset(old(a[..])) && SmallestFirst(a[..], i + 1)
  {
    var j := i + 1;
    while j < a.Length
      invariant i < j <= a.Length
      invariant multiset(a[..]) == multiset(old(a[..])) && SmallestFirst(a[..], i) && LeastSoFar(a[..], i, j)
    {
      ghost var s := a[..];
      if a[i] > a[j] {
        SwapKeeps(s, i, j);
        a[i], a[j] := a[j], a[i];
        assert a[..] == s[i := s[j]][j := s[i]];
      }
      j := j + 1;
    }
  }

  /** The exchange sort both booking_book_seats and booking_cancel use. */
  method ExchangeSort(a: array<Id>)
    modifies a
    ensures a[..] == Sorted(old(a[..]))
  {
    var i := 0;
    while i < a.Length - 1
      invariant 0 <= i <= a.Length && (a.Length > 0 ==> i <= a.Length - 1)
      invariant multiset(a[..]) == multiset(old(a[..])) && SmallestFirst(a[..], i)
    {
      LeastTo(a, i);
      i := i + 1;
    }
    assert NonDescending(a[..]);
    SortedSorts(old(a[..]));
    SortedUnique(a[..], Sorted(old(a[..])));
  }
}
