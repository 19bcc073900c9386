// The booking engine as a step system: every thread is a program counter, every call into the transaction
// manager or a table is one atomic step, and a thread whose lock is taken cannot step. That a lock may be taken in
// one step is LockOwners.RunsAreAtomic.
module BookingModel {
  import opened Common

  const MAX_SEATS := 10
  const MAX_TXNS := 128
  const MAX_ROWS := 26
  const MAX_COLS := 100

  type Id = nat
  type Tid = nat

  // ---------------------------------------------------------------------------
  // Shared tables and locks
  // ---------------------------------------------------------------------------

  datatype SeatStatus = Available | Locked | Booked

  datatype Seat = Seat(event: Id, status: SeatStatus, bookedBy: Id)

  datatype BookingStatus = Confirmed | Cancelled

  datatype Booking = Booking(user: Id, event: Id, seatCount: nat, status: BookingStatus)

  /** A row of the junction table. */
  datatype Junction = Junction(booking: Id, seat: Id)

  /** A lockable record: a row of TABLE_BOOKINGS or of TABLE_SEATS. */
  datatype Record = BookingRow(id: Id) | SeatRow(id: Id)

  datatype Result = Ok | Generic | NotFound | InvalidArg | SeatUnavail | Auth

  // ---------------------------------------------------------------------------
  // Threads
  // ---------------------------------------------------------------------------

  datatype BookPc = BkEvent | BkBegin | BkLock | BkCheck | BkInsert | BkRow | BkRead | BkMark | BkCommit

  datatype CancelPc = CnBegin | CnLock | CnFind | CnScan | CnSeatLock | CnRead | CnFree | CnMark | CnCommit

  datatype BookJob = BookJob(user: Id, event: Id, seats: seq<Id>, pc: BookPc, i: nat, id: Id, buf: Seat)

  datatype CancelJob = CancelJob(id: Id, user: Id, pc: CancelPc, found: Booking, seats: seq<Id>, i: nat, buf: Seat)

  datatype Thread =
    | Book(b: BookJob)
    | Cancel(c: CancelJob)
    | Create(event: Id, rows: nat, cols: nat, made: nat)
    | Release(held: seq<Record>, result: Result)
    | Done(result: Result)

  datatype Request =
    | BookReq(user: Id, event: Id, seats: seq<Id>)
    | CancelReq(booking: Id, user: Id)
    | CreateReq(rows: nat, cols: nat)

  datatype State = State(
    events: map<Id, bool>,
    seats: map<Id, Seat>,
    bookings: map<Id, Booking>,
    rows: seq<Junction>,
    locks: map<Record, Tid>,
    threads: map<Tid, Thread>,
    nextEvent: Id,
    nextSeat: Id,
    nextBooking: Id)

  const NoSeat := Seat(0, Available, 0)
  const NoBooking := Booking(0, 0, 0, Confirmed)
  const Initial := State(map[], map[], map[], [], map[], map[], 1, 1, 1)

  // ---------------------------------------------------------------------------
  // Helpers
  // ---------------------------------------------------------------------------

  /** The seats of one booking's junction rows, in table order. */
  function RowsOf(rows: seq<Junction>, b: Id): seq<Id> {
    if rows == [] then []
    else
      var front := RowsOf(rows[..|rows| - 1], b);
      var last := rows[|rows| - 1];
      if last.booking == b then front + [last.seat] else front
  }

  /** table_scan into a buffer of `max` records. */
  function Take<T>(s: seq<T>, max: nat): seq<T> {
    if |s| <= max then s else s[..max]
  }

  function Insert(x: Id, s: seq<Id>): seq<Id> {
    if s == [] || x <= s[0] then [x] + s else [s[0]] + Insert(x, s[1..])
  }

  /** The seats in ascending order. */
  function Sorted(s: seq<Id>): seq<Id> {
    if s == [] then [] else Insert(s[0], Sorted(s[1..]))
  }

  /** The argument checks of booking_book_seats. */
  predicate GoodSeats(s: seq<Id>) {
    1 <= |s| <= MAX_SEATS && Distinct(s) && 0 !in s
  }

  /** The argument checks of event_mgr_create_event. */
  predicate GoodGrid(rows: nat, cols: nat) {
    1 <= rows <= MAX_ROWS && 1 <= cols <= MAX_COLS
  }

  function Seats(ids: seq<Id>): (r: seq<Record>)
    ensures |r| == |ids| && forall k :: 0 <= k < |r| ==> r[k] == SeatRow(ids[k])
  {
    seq(|ids|, k requires 0 <= k < |ids| => SeatRow(ids[k]))
  }

  /** Whether a thread occupies a slot of the transaction manager. */
  predicate InTxn(th: Thread) {
    match th
    case Book(b) => b.pc != BkEvent && b.pc != BkBegin
    case Cancel(c) => c.pc != CnBegin
    case _ => false
  }

  ghost function Active(s: State): set<Tid> {
    set t | t in s.threads && InTxn(s.threads[t])
  }

  // ---------------------------------------------------------------------------
  // Arrival of a request
  // ---------------------------------------------------------------------------

  function Start(q: Request, s: State): Thread {
    match q
    case BookReq(user, event, seats) =>
      if GoodSeats(seats) then Book(BookJob(user, event, seats, BkEvent, 0, 0, NoSeat)) else Done(InvalidArg)
    case CancelReq(booking, user) => Cancel(CancelJob(booking, user, CnBegin, NoBooking, [], 0, NoSeat))
    case CreateReq(rows, cols) => if GoodGrid(rows, cols) then Create(s.nextEvent, rows, cols, 0) else Done(InvalidArg)
  }

  /** A request arrives on a thread of its own; an accepted event_mgr_create_event inserts its event row. */
  function Arrive(s: State, t: Tid, q: Request): State
    requires t !in s.threads
  {
    var th := Start(q, s);
    var s' := s.(threads := s.threads[t := th]);
    if th.Create? then s'.(events := s.events[th.event := true], nextEvent := s.nextEvent + 1) else s'
  }

  // ---------------------------------------------------------------------------
  // The steps of a thread
  // ---------------------------------------------------------------------------

  /** The record a thread is about to lock. */
  function Wants(th: Thread): Option<Record> {
    match th
    case Book(b) => if b.pc == BkLock && b.i < |b.seats| then Some(SeatRow(b.seats[b.i])) else None
    case Cancel(c) =>
      if c.pc == CnLock then Some(BookingRow(c.id))
      else if c.pc == CnSeatLock && c.i < |c.seats| then Some(SeatRow(c.seats[c.i]))
      else None
    case _ => None
  }

  predicate Free(s: State, t: Tid, r: Record) {
    r in s.locks ==> s.locks[r] == t
  }

  predicate Enabled(s: State, t: Tid) {
    && t in s.threads && !s.threads[t].Done?
    && (Wants(s.threads[t]).Some? ==> Free(s, t, Wants(s.threads[t]).value))
  }

  function With(s: State, t: Tid, th: Thread): State {
    s.(threads := s.threads[t := th])
  }

  function Acquire(s: State, t: Tid, r: Record): State {
    s.(locks := s.locks[r := t])
  }

  /** booking_book_seats from the event lookup on. */
  ghost function ActBook(s: State, t: Tid): State
    requires t in s.threads && s.threads[t].Book?
  {
    var j := s.threads[t].b;
    var n := |j.seats|;
    match j.pc
    case BkEvent =>
      With(s, t, if j.event !in s.events then Done(NotFound)
                 else if !s.events[j.event] then Done(Generic)
                 else Book(j.(pc := BkBegin)))
    case BkBegin =>
      With(s, t, if |Active(s)| >= MAX_TXNS then Done(Generic)
                 else Book(j.(pc := BkLock, seats := Sorted(j.seats), i := 0)))
    case BkLock =>
      if j.i < n then Acquire(With(s, t, Book(j.(i := j.i + 1))), t, SeatRow(j.seats[j.i]))
      else With(s, t, Book(j.(pc := BkCheck, i := 0)))
    case BkCheck =>
      With(s, t, if j.i >= n then Book(j.(pc := BkInsert))
                 else if j.seats[j.i] !in s.seats then Release(Seats(j.seats), NotFound)
                 else if s.seats[j.seats[j.i]].event != j.event then Release(Seats(j.seats), InvalidArg)
                 else if s.seats[j.seats[j.i]].status != Available then Release(Seats(j.seats), SeatUnavail)
                 else Book(j.(i := j.i + 1)))
    case BkInsert =>
      With(s, t, Book(j.(pc := BkRow, i := 0, id := s.nextBooking))).(
        bookings := s.bookings[s.nextBooking := Booking(j.user, j.event, n, Confirmed)],
        nextBooking := s.nextBooking + 1)
    case BkRow =>
      if j.i < n then With(s, t, Book(j.(pc := BkRead))).(rows := s.rows + [Junction(j.id, j.seats[j.i])])
      else With(s, t, Book(j.(pc := BkCommit)))
    case BkRead =>
      With(s, t, if j.i < n && j.seats[j.i] in s.seats
                 then Book(j.(pc := BkMark, buf := s.seats[j.seats[j.i]].(status := Booked, bookedBy := j.user)))
                 else Release(Seats(j.seats), NotFound))
    case BkMark =>
      if j.i < n && j.seats[j.i] in s.seats
      then With(s, t, Book(j.(pc := BkRow, i := j.i + 1))).(seats := s.seats[j.seats[j.i] := j.buf])
      else With(s, t, Release(Seats(j.seats), NotFound))
    case BkCommit => With(s, t, Release(Seats(j.seats), Ok))
  }

  /** The records a cancellation has locked by the time it gives up or commits. */
  function CancelHeld(j: CancelJob, upTo: nat): seq<Record>
    requires upTo <= |j.seats|
  {
    [BookingRow(j.id)] + Seats(j.seats[..upTo])
  }

  /** booking_cancel */
  ghost function ActCancel(s: State, t: Tid): State
    requires t in s.threads && s.threads[t].Cancel?
  {
    var j := s.threads[t].c;
    var n := |j.seats|;
    match j.pc
    case CnBegin => With(s, t, if |Active(s)| >= MAX_TXNS then Done(Generic) else Cancel(j.(pc := CnLock)))
    case CnLock => Acquire(With(s, t, Cancel(j.(pc := CnFind))), t, BookingRow(j.id))
    case CnFind =>
      With(s, t, if j.id !in s.bookings then Release(CancelHeld(j, 0), NotFound)
                 else if s.bookings[j.id].user != j.user then Release(CancelHeld(j, 0), Auth)
                 else if s.bookings[j.id].status != Confirmed then Release(CancelHeld(j, 0), Generic)
                 else Cancel(j.(pc := CnScan, found := s.bookings[j.id])))
    case CnScan => With(s, t, Cancel(j.(pc := CnSeatLock, i := 0, seats := Sorted(Take(RowsOf(s.rows, j.id), MAX_SEATS)))))
    case CnSeatLock =>
      if j.i < n then Acquire(With(s, t, Cancel(j.(pc := CnRead))), t, SeatRow(j.seats[j.i]))
      else With(s, t, Cancel(j.(pc := CnMark)))
    case CnRead =>
      With(s, t, if j.i < n && j.seats[j.i] in s.seats
                 then Cancel(j.(pc := CnFree, buf := s.seats[j.seats[j.i]].(status := Available, bookedBy := 0)))
                 else Cancel(j.(pc := CnSeatLock, i := j.i + 1)))
    case CnFree =>
      if j.i < n then With(s, t, Cancel(j.(pc := CnSeatLock, i := j.i + 1))).(seats := s.seats[j.seats[j.i] := j.buf])
      else With(s, t, Cancel(j.(pc := CnMark)))
    case CnMark => With(s, t, Cancel(j.(pc := CnCommit))).(bookings := s.bookings[j.id := j.found.(status := Cancelled)])
    case CnCommit => With(s, t, Release(CancelHeld(j, n), Ok))
  }

  /** One seat row of event_mgr_create_event's grid. */
  function ActCreate(s: State, t: Tid): State
    requires t in s.threads && s.threads[t].Create?
  {
    var th := s.threads[t];
    if th.made < th.rows * th.cols
    then With(s, t, th.(made := th.made + 1)).(seats := s.seats[s.nextSeat := Seat(th.event, Available, 0)],
                                                 nextSeat := s.nextSeat + 1)
    else With(s, t, Done(Ok))
  }

  /** txn_commit and txn_abort release the copied locks one by one. */
  function ActRelease(s: State, t: Tid): State
    requires t in s.threads && s.threads[t].Release?
  {
    var th := s.threads[t];
    if th.held == [] then With(s, t, Done(th.result))
    else With(s, t, th.(held := th.held[1..])).(locks := s.locks - {th.held[0]})
  }

  ghost function Act(s: State, t: Tid): State
    requires Enabled(s, t)
  {
    match s.threads[t]
    case Book(_) => ActBook(s, t)
    case Cancel(_) => ActCancel(s, t)
    case Create(_, _, _, _) => ActCreate(s, t)
    case Release(_, _) => ActRelease(s, t)
  }

  /** A request arrives, a thread steps, or an event is switched on or off, or deleted (event_mgr_delete_event). */
  datatype Move = Arrives(t: Tid, q: Request) | Acts(t: Tid) | EventSet(event: Id, active: bool) | EventGone(event: Id)

  ghost predicate CanMove(s: State, m: Move) {
    match m
    case Arrives(t, _) => t !in s.threads
    case Acts(t) => Enabled(s, t)
    case EventSet(e, _) => e in s.events
    case EventGone(e) => e in s.events
  }

  ghost function Moved(s: State, m: Move): State
    requires CanMove(s, m)
  {
    match m
    case Arrives(t, q) => Arrive(s, t, q)
    case Acts(t) => Act(s, t)
    case EventSet(e, active) => s.(events := s.events[e := active])
    case EventGone(e) => s.(events := s.events - {e})
  }
}
