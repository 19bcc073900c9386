// One request at a time: what a booking, a cancellation or a new event does, and what it answers, when it starts from a
// state at rest and nobody else runs.
module BookingAlone {
  import opened BookingModel
  import opened BookingSafety
  import opened BookingRefinement
  import opened Common

  // ---------------------------------------------------------------------------
  // Runs of one thread
  // ---------------------------------------------------------------------------

  /** One step of one thread, if it can take one. */
  type Stepper = State -> Option<State>

  ghost predicate Drives(next: Stepper, t: Tid) {
    forall s {:trigger Act(s, t)} :: Enabled(s, t) ==> next(s) == Some(Act(s, t))
  }

  /** `n` steps lead from `s` to `f`. */
  ghost predicate Reaches(next: Stepper, s: State, f: State, n: nat)
    decreases n
  {
    if n == 0 then s == f else next(s).Some? && Reaches(next, next(s).value, f, n - 1)
  }

  lemma Staying(next: Stepper, s: State)
    ensures Reaches(next, s, s, 0) == true
  {
  }

  lemma Stepping(next: Stepper, s: State, m: State, f: State, k: nat) returns (n: nat)
    requires next(s) == Some(m) && Reaches(next, m, f, k) == true
    ensures Reaches(next, s, f, n) == true && n == k + 1
  {
    n := k + 1;
  }

  lemma Single(next: Stepper, s: State, f: State) returns (n: nat)
    requires next(s) == Some(f)
    ensures Reaches(next, s, f, n) == true && n == 1
  {
    n := 1;
    Staying(next, f);
  }

  lemma {:induction false} Joining(next: Stepper, s: State, m: State, f: State, a: nat, b: nat) returns (n: nat)
    requires Reaches(next, s, m, a) == true && Reaches(next, m, f, b) == true
    ensures Reaches(next, s, f, n) == true && n == a + b
    decreases a
  {
    if a == 0 {
      n := b;
    } else {
      n := Joining(next, next(s).value, m, f, a - 1, b);
      n := Stepping(next, s, next(s).value, f, n);
    }
  }

  /** The steps of thread `t`. */
  ghost function Alone(t: Tid): Stepper {
    (s: State) => if Enabled(s, t) then Some(Act(s, t)) else None
  }

  function Times(t: Tid, n: nat): (ms: seq<Move>)
    ensures |ms| == n
  {
    if n == 0 then [] else [Acts(t)] + Times(t, n - 1)
  }

  lemma TimesTail(t: Tid, n: nat)
    requires n > 0
    ensures Times(t, n)[0] == Acts(t) && Times(t, n)[1..] == Times(t, n - 1)
  {
  }

  lemma {:induction false} ReachesRuns(s: State, t: Tid, f: State, n: nat)
    requires Reaches(Alone(t), s, f, n)
    ensures Runs(s, Times(t, n)) && After(s, Times(t, n)) == f
    decreases n
  {
    if n > 0 {
      ReachesRuns(Act(s, t), t, f, n - 1);
      TimesTail(t, n);
    }
  }

  /** A thread that runs alone to its answer has only one way to go. */
  lemma {:induction false} OneWay(s: State, t: Tid, f: State, n: nat, k: nat)
    requires Reaches(Alone(t), s, f, n) && t in f.threads && f.threads[t].Done?
    requires Runs(s, Times(t, k)) && t in After(s, Times(t, k)).threads && After(s, Times(t, k)).threads[t].Done?
    ensures After(s, Times(t, k)) == f
    decreases k
  {
    if k > 0 {
      TimesTail(t, k);
      if n > 0 {
        OneWay(Act(s, t), t, f, n - 1, k - 1);
      }
    }
  }

  // ---------------------------------------------------------------------------
  // Locks
  // ---------------------------------------------------------------------------

  /** Thread `t` has all these records, and nobody has any other. */
  ghost function LocksOf(t: Tid, rs: seq<Record>): map<Record, Tid> {
    map r | r in rs :: t
  }

  lemma LockMore(t: Tid, rs: seq<Record>, r: Record)
    ensures LocksOf(t, rs)[r := t] == LocksOf(t, rs + [r])
  {
  }

  lemma LockLess(t: Tid, rs: seq<Record>)
    requires rs != [] && Distinct(rs)
    ensures LocksOf(t, rs) - {rs[0]} == LocksOf(t, rs[1..]) && Distinct(rs[1..])
  {
    var rest := rs[1..];
    assert forall i :: 0 <= i < |rest| ==> rest[i] == rs[i + 1];
    assert rs[0] !in rest;
    assert rs == [rs[0]] + rest;
  }

  /** The tables of `base`, with thread `t` at `th` and these locks out. */
  ghost function At(base: State, t: Tid, th: Thread, rs: seq<Record>): State {
    base.(threads := base.threads[t := th], locks := LocksOf(t, rs))
  }

  lemma ReleaseOne(base: State, t: Tid, rs: seq<Record>, r: Result)
    requires Distinct(rs)
    ensures var s := At(base, t, Release(rs, r), rs);
            Enabled(s, t) && Act(s, t) == if rs == [] then At(base, t, Done(r), []) else At(base, t, Release(rs[1..], r), rs[1..])
    ensures rs != [] ==> Distinct(rs[1..])
  {
    if rs != [] {
      LockLess(t, rs);
      assert base.threads[t := Release(rs, r)][t := Release(rs[1..], r)] == base.threads[t := Release(rs[1..], r)];
    } else {
      assert base.threads[t := Release(rs, r)][t := Done(r)] == base.threads[t := Done(r)];
    }
  }

  lemma {:induction false} ReleasesAll(next: Stepper, base: State, t: Tid, rs: seq<Record>, r: Result) returns (n: nat)
    requires Drives(next, t)
    requires Distinct(rs)
    ensures Reaches(next, At(base, t, Release(rs, r), rs), At(base, t, Done(r), []), n) == true
    decreases |rs|
  {
    ReleaseOne(base, t, rs, r);
    if rs == [] {
      n := Single(next, At(base, t, Release(rs, r), rs), At(base, t, Done(r), []));
    } else {
      var m := ReleasesAll(next, base, t, rs[1..], r);
      n := Stepping(next, At(base, t, Release(rs, r), rs), At(base, t, Release(rs[1..], r), rs[1..]), At(base, t, Done(r), []), m);
    }
  }

  lemma SeatLocks(seats: seq<Id>, i: nat)
    requires i < |seats|
    ensures Seats(seats[..i]) + [SeatRow(seats[i])] == Seats(seats[..i + 1])
  {
  }

  lemma SeatsDistinct(seats: seq<Id>)
    requires Distinct(seats)
    ensures Distinct(Seats(seats))
  {
  }

  lemma AtRest(s: State)
    requires Inv(s) && Quiet(s)
    ensures s.locks == map[] && Active(s) == {}
  {
    QuietView(s);
  }

  // ---------------------------------------------------------------------------
  // Booking
  // ---------------------------------------------------------------------------

  /** What is wrong with a seat, if anything. */
  ghost function SeatAnswer(s: State, event: Id, x: Id): Result {
    if x !in s.seats then NotFound
    else if s.seats[x].event != event then InvalidArg
    else if s.seats[x].status != Available then SeatUnavail
    else Ok
  }

  /** The first seat, in ascending order, that is not right decides. */
  ghost function SeatsAnswer(s: State, event: Id, seats: seq<Id>): Result {
    if seats == [] then Ok
    else if SeatAnswer(s, event, seats[0]) != Ok then SeatAnswer(s, event, seats[0])
    else SeatsAnswer(s, event, seats[1..])
  }

  ghost function BookAnswer(s: State, event: Id, seats: seq<Id>): Result {
    if !(1 <= |seats| <= 10 && Distinct(seats) && 0 !in seats) then InvalidArg
    else if event !in s.events then NotFound
    else if !s.events[event] then Generic
    else SeatsAnswer(s, event, Sorted(seats))
  }

  ghost function RowsFor(b: Id, seats: seq<Id>): (r: seq<Junction>)
    ensures |r| == |seats| && forall i :: 0 <= i < |r| ==> r[i] == Junction(b, seats[i])
  {
    seq(|seats|, i requires 0 <= i < |seats| => Junction(b, seats[i]))
  }

  /** The tables once the booking is there with rows for the first `r` of its seats, the first `m` of which are marked. */
  ghost function Filled(s: State, user: Id, event: Id, seats: seq<Id>, r: nat, m: nat): State
    requires m <= r <= |seats|
  {
    s.(bookings := s.bookings[s.nextBooking := Booking(user, event, |seats|, Confirmed)], nextBooking := s.nextBooking + 1,
       rows := s.rows + RowsFor(s.nextBooking, seats[..r]), seats := SetSeats(s.seats, seats[..m], Booked, user))
  }

  ghost function AfterBooking(s: State, t: Tid, user: Id, event: Id, seats: seq<Id>): State {
    var r := BookAnswer(s, event, seats);
    if r != Ok then s.(threads := s.threads[t := Done(r)])
    else Filled(s, user, event, Sorted(seats), |Sorted(seats)|, |Sorted(seats)|).(threads := s.threads[t := Done(Ok)])
  }

  /** A job on ascending seats, with the records it has by then. */
  ghost function Job(user: Id, event: Id, seats: seq<Id>, pc: BookPc, i: nat, id: Id, buf: Seat): Thread {
    Book(BookJob(user, event, seats, pc, i, id, buf))
  }

  /** A booking thread that locks its seats, or has locked them all. */
  ghost function Locking(s: State, t: Tid, user: Id, event: Id, seats: seq<Id>, i: nat): State
    requires i <= |seats|
  {
    At(s, t, Job(user, event, seats, BkLock, i, 0, NoSeat), Seats(seats[..i]))
  }

  ghost function Checking(s: State, t: Tid, user: Id, event: Id, seats: seq<Id>, i: nat): State {
    At(s, t, Job(user, event, seats, BkCheck, i, 0, NoSeat), Seats(seats))
  }

  lemma LockOne(s: State, t: Tid, user: Id, event: Id, seats: seq<Id>, i: nat)
    requires i < |seats| && Distinct(seats)
    ensures var here := Locking(s, t, user, event, seats, i);
            Enabled(here, t) && Act(here, t) == Locking(s, t, user, event, seats, i + 1)
  {
    var here := Locking(s, t, user, event, seats, i);
    LockMore(t, Seats(seats[..i]), SeatRow(seats[i]));
    SeatLocks(seats, i);
    NotYetLocked(seats, i);
    assert Act(here, t).threads == Locking(s, t, user, event, seats, i + 1).threads;
  }

  lemma NotYetLocked(seats: seq<Id>, i: nat)
    requires i < |seats| && Distinct(seats)
    ensures SeatRow(seats[i]) !in Seats(seats[..i])
  {
  }

  lemma LockedAll(s: State, t: Tid, user: Id, event: Id, seats: seq<Id>)
    ensures var here := Locking(s, t, user, event, seats, |seats|);
            Enabled(here, t) && Act(here, t) == Checking(s, t, user, event, seats, 0)
  {
    TakeAll(seats);
    assert Act(Locking(s, t, user, event, seats, |seats|), t).threads == Checking(s, t, user, event, seats, 0).threads;
  }

  lemma {:induction false} LocksAll(next: Stepper, s: State, t: Tid, user: Id, event: Id, seats: seq<Id>, i: nat) returns (n: nat)
    requires Drives(next, t)
    requires i <= |seats| && Distinct(seats)
    ensures Reaches(next, Locking(s, t, user, event, seats, i), Checking(s, t, user, event, seats, 0), n) == true
    decreases |seats| - i
  {
    if i == |seats| {
      LockedAll(s, t, user, event, seats);
      n := Single(next, Locking(s, t, user, event, seats, i), Checking(s, t, user, event, seats, 0));
    } else {
      LockOne(s, t, user, event, seats, i);
      var m := LocksAll(next, s, t, user, event, seats, i + 1);
      n := Stepping(next, Locking(s, t, user, event, seats, i), Locking(s, t, user, event, seats, i + 1), Checking(s, t, user, event, seats, 0), m);
    }
  }

  /** Where the checks end: in front of the insert, or giving up with answer `r`. */
  ghost function Decided(s: State, t: Tid, user: Id, event: Id, seats: seq<Id>, r: Result): State {
    At(s, t, if r == Ok then Job(user, event, seats, BkInsert, |seats|, 0, NoSeat) else Release(Seats(seats), r), Seats(seats))
  }

  lemma ChecksDone(s: State, t: Tid, user: Id, event: Id, seats: seq<Id>)
    ensures var here := Checking(s, t, user, event, seats, |seats|);
            Enabled(here, t) && Act(here, t) == Decided(s, t, user, event, seats, Ok)
  {
    assert Act(Checking(s, t, user, event, seats, |seats|), t).threads == Decided(s, t, user, event, seats, Ok).threads;
  }

  lemma CheckGood(s: State, t: Tid, user: Id, event: Id, seats: seq<Id>, i: nat)
    requires i < |seats| && SeatAnswer(s, event, seats[i]) == Ok
    ensures var here := Checking(s, t, user, event, seats, i);
            Enabled(here, t) && Act(here, t) == Checking(s, t, user, event, seats, i + 1)
  {
    assert Act(Checking(s, t, user, event, seats, i), t).threads == Checking(s, t, user, event, seats, i + 1).threads;
  }

  lemma CheckBad(s: State, t: Tid, user: Id, event: Id, seats: seq<Id>, i: nat, r: Result)
    requires i < |seats| && SeatAnswer(s, event, seats[i]) == r != Ok
    ensures var here := Checking(s, t, user, event, seats, i);
            Enabled(here, t) && Act(here, t) == Decided(s, t, user, event, seats, r)
  {
    assert Act(Checking(s, t, user, event, seats, i), t).threads == Decided(s, t, user, event, seats, r).threads;
  }

  lemma {:induction false} ChecksAll(next: Stepper, s: State, t: Tid, user: Id, event: Id, seats: seq<Id>, i: nat) returns (n: nat)
    requires Drives(next, t)
    requires i <= |seats|
    ensures Reaches(next, Checking(s, t, user, event, seats, i), Decided(s, t, user, event, seats, SeatsAnswer(s, event, seats[i..])), n) == true
    decreases |seats| - i
  {
    var r := SeatsAnswer(s, event, seats[i..]);
    if i == |seats| {
      ChecksDone(s, t, user, event, seats);
      n := Single(next, Checking(s, t, user, event, seats, i), Decided(s, t, user, event, seats, r));
    } else {
      DropHead(seats, i);
      if SeatAnswer(s, event, seats[i]) == Ok {
        CheckGood(s, t, user, event, seats, i);
        n := ChecksAll(next, s, t, user, event, seats, i + 1);
        n := Stepping(next, Checking(s, t, user, event, seats, i), Checking(s, t, user, event, seats, i + 1), Decided(s, t, user, event, seats, r), n);
      } else {
        CheckBad(s, t, user, event, seats, i, r);
        n := Single(next, Checking(s, t, user, event, seats, i), Decided(s, t, user, event, seats, r));
      }
    }
  }

  lemma OneRowMore(s: State, user: Id, event: Id, seats: seq<Id>, i: nat)
    requires i < |seats|
    ensures Filled(s, user, event, seats, i + 1, i)
         == Filled(s, user, event, seats, i, i).(rows := Filled(s, user, event, seats, i, i).rows + [Junction(s.nextBooking, seats[i])])
  {
    assert RowsFor(s.nextBooking, seats[..i + 1]) == RowsFor(s.nextBooking, seats[..i]) + [Junction(s.nextBooking, seats[i])];
  }

  lemma OneMarkMore(s: State, user: Id, event: Id, seats: seq<Id>, i: nat)
    requires i < |seats| && Distinct(seats) && seats[i] in s.seats
    ensures var f := Filled(s, user, event, seats, i + 1, i);
            && seats[i] in f.seats && f.seats[seats[i]] == s.seats[seats[i]]
            && Filled(s, user, event, seats, i + 1, i + 1)
               == f.(seats := f.seats[seats[i] := s.seats[seats[i]].(status := Booked, bookedBy := user)])
  {
    assert seats[..i + 1] == seats[..i] + [seats[i]];
    assert seats[i] !in seats[..i];
  }

  /** The booking is there, with all its rows and marks. */
  ghost function Complete(s: State, user: Id, event: Id, seats: seq<Id>): State {
    Filled(s, user, event, seats, |seats|, |seats|)
  }

  /** A booking thread that has filled in its first `i` seats. */
  ghost function Filling(s: State, t: Tid, user: Id, event: Id, seats: seq<Id>, i: nat, buf: Seat): State
    requires i <= |seats|
  {
    At(Filled(s, user, event, seats, i, i), t, Job(user, event, seats, BkRow, i, s.nextBooking, buf), Seats(seats))
  }

  /** It has inserted the row of seat `i` and reads the seat, or is about to write it. */
  ghost function Marking(s: State, t: Tid, user: Id, event: Id, seats: seq<Id>, i: nat, pc: BookPc, buf: Seat): State
    requires i < |seats|
  {
    At(Filled(s, user, event, seats, i + 1, i), t, Job(user, event, seats, pc, i, s.nextBooking, buf), Seats(seats))
  }

  ghost function Committing(s: State, t: Tid, user: Id, event: Id, seats: seq<Id>, buf: Seat): State {
    At(Complete(s, user, event, seats), t, Job(user, event, seats, BkCommit, |seats|, s.nextBooking, buf), Seats(seats))
  }

  lemma RowOne(s: State, t: Tid, user: Id, event: Id, seats: seq<Id>, i: nat, buf: Seat)
    requires i <= |seats|
    ensures var a := Filling(s, t, user, event, seats, i, buf);
            Enabled(a, t)
            && Act(a, t) == if i < |seats| then Marking(s, t, user, event, seats, i, BkRead, buf) else Committing(s, t, user, event, seats, buf)
  {
    var a := Filling(s, t, user, event, seats, i, buf);
    if i < |seats| {
      OneRowMore(s, user, event, seats, i);
      assert Act(a, t).threads == Marking(s, t, user, event, seats, i, BkRead, buf).threads;
    } else {
      assert Act(a, t).threads == Committing(s, t, user, event, seats, buf).threads;
    }
  }

  /** The seat as it is written. */
  ghost function Mark(s: State, user: Id, x: Id): Seat
    requires x in s.seats
  {
    s.seats[x].(status := Booked, bookedBy := user)
  }

  lemma ReadOne(s: State, t: Tid, user: Id, event: Id, seats: seq<Id>, i: nat, buf: Seat)
    requires i < |seats| && Distinct(seats) && seats[i] in s.seats
    ensures var a := Marking(s, t, user, event, seats, i, BkRead, buf);
            Enabled(a, t) && Act(a, t) == Marking(s, t, user, event, seats, i, BkMark, Mark(s, user, seats[i]))
  {
    OneMarkMore(s, user, event, seats, i);
    assert Act(Marking(s, t, user, event, seats, i, BkRead, buf), t).threads
        == Marking(s, t, user, event, seats, i, BkMark, Mark(s, user, seats[i])).threads;
  }

  lemma MarkOne(s: State, t: Tid, user: Id, event: Id, seats: seq<Id>, i: nat)
    requires i < |seats| && Distinct(seats) && seats[i] in s.seats
    ensures var v := Mark(s, user, seats[i]); var a := Marking(s, t, user, event, seats, i, BkMark, v);
            Enabled(a, t) && Act(a, t) == Filling(s, t, user, event, seats, i + 1, v)
  {
    var v := Mark(s, user, seats[i]);
    OneMarkMore(s, user, event, seats, i);
    assert Act(Marking(s, t, user, event, seats, i, BkMark, v), t).threads == Filling(s, t, user, event, seats, i + 1, v).threads;
  }

  lemma OneFilled(next: Stepper, s: State, t: Tid, user: Id, event: Id, seats: seq<Id>, i: nat, buf: Seat, goal: State, k: nat) returns (n: nat)
    requires Drives(next, t)
    requires i < |seats| && Distinct(seats) && seats[i] in s.seats
    requires Reaches(next, Filling(s, t, user, event, seats, i + 1, Mark(s, user, seats[i])), goal, k) == true
    ensures Reaches(next, Filling(s, t, user, event, seats, i, buf), goal, n) == true
  {
    var v := Mark(s, user, seats[i]);
    MarkOne(s, t, user, event, seats, i);
    n := Stepping(next, Marking(s, t, user, event, seats, i, BkMark, v), Filling(s, t, user, event, seats, i + 1, v), goal, k);
    ReadOne(s, t, user, event, seats, i, buf);
    n := Stepping(next, Marking(s, t, user, event, seats, i, BkRead, buf), Marking(s, t, user, event, seats, i, BkMark, v), goal, n);
    RowOne(s, t, user, event, seats, i, buf);
    n := Stepping(next, Filling(s, t, user, event, seats, i, buf), Marking(s, t, user, event, seats, i, BkRead, buf), goal, n);
  }

  /** Rows and marks, from seat `i` on. */
  lemma {:induction false} FillsAll(next: Stepper, s: State, t: Tid, user: Id, event: Id, seats: seq<Id>, i: nat, buf: Seat) returns (n: nat, last: Seat)
    requires Drives(next, t)
    requires i <= |seats| && Distinct(seats) && forall x :: x in seats ==> x in s.seats
    ensures Reaches(next, Filling(s, t, user, event, seats, i, buf), Committing(s, t, user, event, seats, last), n) == true
    decreases |seats| - i
  {
    if i == |seats| {
      last := buf;
      RowOne(s, t, user, event, seats, i, buf);
      n := Single(next, Filling(s, t, user, event, seats, i, buf), Committing(s, t, user, event, seats, buf));
    } else {
      n, last := FillsAll(next, s, t, user, event, seats, i + 1, Mark(s, user, seats[i]));
      n := OneFilled(next, s, t, user, event, seats, i, buf, Committing(s, t, user, event, seats, last), n);
    }
  }

  lemma {:induction false} SeatsOkExactly(s: State, event: Id, seats: seq<Id>)
    ensures SeatsAnswer(s, event, seats) == Ok <==> forall x :: x in seats ==> SeatAnswer(s, event, x) == Ok
    ensures SeatsAnswer(s, event, seats) != Ok ==> exists x :: x in seats && SeatAnswer(s, event, x) == SeatsAnswer(s, event, seats)
    decreases |seats|
  {
    if seats != [] {
      SeatsOkExactly(s, event, seats[1..]);
      assert seats == [seats[0]] + seats[1..];
    }
  }

  lemma InsertOne(s: State, t: Tid, user: Id, event: Id, seats: seq<Id>)
    ensures var a := Decided(s, t, user, event, seats, Ok);
            Enabled(a, t)
            && Act(a, t) == Filling(s, t, user, event, seats, 0, NoSeat)
  {
    var a := Decided(s, t, user, event, seats, Ok);
    var b := Filling(s, t, user, event, seats, 0, NoSeat);
    AppendNothing(s.rows);
    assert RowsFor(s.nextBooking, seats[..0]) == [] && SetSeats(s.seats, seats[..0], Booked, user) == s.seats;
    assert Act(a, t).threads == b.threads;
  }

  lemma CommitOne(s: State, t: Tid, user: Id, event: Id, seats: seq<Id>, buf: Seat)
    ensures var a := Committing(s, t, user, event, seats, buf);
            Enabled(a, t) && Act(a, t) == At(Complete(s, user, event, seats), t, Release(Seats(seats), Ok), Seats(seats))
  {
    assert Act(Committing(s, t, user, event, seats, buf), t).threads
        == At(Complete(s, user, event, seats), t, Release(Seats(seats), Ok), Seats(seats)).threads;
  }

  /** A booking alone, past its checks. */
  lemma BooksAlone(next: Stepper, s: State, t: Tid, user: Id, event: Id, seats: seq<Id>) returns (n: nat)
    requires Drives(next, t)
    requires Distinct(seats) && SeatsAnswer(s, event, seats) == Ok
    ensures Reaches(next, Decided(s, t, user, event, seats, Ok), At(Complete(s, user, event, seats), t, Done(Ok), []), n) == true
  {
    SeatsOkExactly(s, event, seats);
    SeatsDistinct(seats);
    var all := Complete(s, user, event, seats);
    var goal := At(all, t, Done(Ok), []);
    var m, last := FillsAll(next, s, t, user, event, seats, 0, NoSeat);
    n := ReleasesAll(next, all, t, Seats(seats), Ok);
    CommitOne(s, t, user, event, seats, last);
    n := Stepping(next, Committing(s, t, user, event, seats, last), At(all, t, Release(Seats(seats), Ok), Seats(seats)), goal, n);
    n := Joining(next, Filling(s, t, user, event, seats, 0, NoSeat), Committing(s, t, user, event, seats, last), goal, m, n);
    InsertOne(s, t, user, event, seats);
    n := Stepping(next, Decided(s, t, user, event, seats, Ok), Filling(s, t, user, event, seats, 0, NoSeat), goal, n);
  }

  /** Locks, checks, and what follows from them. */
  lemma LocksAndOn(next: Stepper, s: State, t: Tid, user: Id, event: Id, seats: seq<Id>) returns (n: nat)
    requires Drives(next, t)
    requires Distinct(seats)
    ensures var r := SeatsAnswer(s, event, seats);
            Reaches(next, Locking(s, t, user, event, seats, 0),
                    At(if r == Ok then Complete(s, user, event, seats) else s, t, Done(r), []), n) == true
  {
    var r := SeatsAnswer(s, event, seats);
    var goal := At(if r == Ok then Complete(s, user, event, seats) else s, t, Done(r), []);
    var a := LocksAll(next, s, t, user, event, seats, 0);
    var b := ChecksAll(next, s, t, user, event, seats, 0);
    assert seats[0..] == seats;
    if r == Ok {
      n := BooksAlone(next, s, t, user, event, seats);
    } else {
      SeatsDistinct(seats);
      n := ReleasesAll(next, s, t, Seats(seats), r);
    }
    n := Joining(next, Checking(s, t, user, event, seats, 0), Decided(s, t, user, event, seats, r), goal, b, n);
    n := Joining(next, Locking(s, t, user, event, seats, 0), Checking(s, t, user, event, seats, 0), goal, a, n);
  }

  lemma NoLocks(s: State, t: Tid, th: Thread)
    requires s.locks == map[]
    ensures At(s, t, th, []) == With(s, t, th)
  {
    assert LocksOf(t, []) == map[];
  }

  lemma FilledNoLocks(s: State, t: Tid, user: Id, event: Id, seats: seq<Id>, th: Thread)
    requires s.locks == map[]
    ensures At(Filled(s, user, event, seats, |seats|, |seats|), t, th, [])
         == Filled(s, user, event, seats, |seats|, |seats|).(threads := s.threads[t := th])
  {
    assert LocksOf(t, []) == map[];
  }

  lemma AloneActive(s: State, t: Tid, th: Thread)
    requires Inv(s) && Quiet(s) && !InTxn(th)
    ensures |Active(With(s, t, th))| == 0
  {
    assert Active(With(s, t, th)) == {};
  }

  /** A booking request that runs alone from a state at rest. */
  lemma BookRuns(next: Stepper, s: State, t: Tid, user: Id, event: Id, seats: seq<Id>) returns (n: nat)
    requires Drives(next, t)
    requires Inv(s) && Quiet(s) && t !in s.threads
    ensures Reaches(next, Arrive(s, t, BookReq(user, event, seats)), AfterBooking(s, t, user, event, seats), n)
  {
    var first, goal := Arrive(s, t, BookReq(user, event, seats)), AfterBooking(s, t, user, event, seats);
    AtRest(s);
    if !(1 <= |seats| <= 10 && Distinct(seats) && 0 !in seats) {
      n := 0;
      assert first == goal;
    } else if event !in s.events || !s.events[event] {
      n := 1;
      assert Act(first, t).threads == goal.threads;
      assert Act(first, t) == goal;
    } else {
      n := BookGoesOn(next, s, t, user, event, seats);
    }
  }

  lemma BookGoesOn(next: Stepper, s: State, t: Tid, user: Id, event: Id, seats: seq<Id>) returns (n: nat)
    requires Drives(next, t)
    requires Inv(s) && Quiet(s) && t !in s.threads && 1 <= |seats| <= 10 && Distinct(seats) && 0 !in seats
    requires event in s.events && s.events[event]
    ensures Reaches(next, Arrive(s, t, BookReq(user, event, seats)), AfterBooking(s, t, user, event, seats), n)
  {
    var first, goal := Arrive(s, t, BookReq(user, event, seats)), AfterBooking(s, t, user, event, seats);
    AtRest(s);
    SortedAscends(seats);
    var sorted := Sorted(seats);
    var begin := With(s, t, Job(user, event, seats, BkBegin, 0, 0, NoSeat));
    AloneActive(s, t, Job(user, event, seats, BkBegin, 0, 0, NoSeat));
    var lock := With(s, t, Job(user, event, sorted, BkLock, 0, 0, NoSeat));
    n := LocksToEnd(next, s, t, user, event, seats);
    BeginAlone(first, begin, lock, s, t, user, event, seats);
    n := Stepping(next, begin, lock, goal, n);
    n := Stepping(next, first, begin, goal, n);
  }

  lemma LocksToEnd(next: Stepper, s: State, t: Tid, user: Id, event: Id, seats: seq<Id>) returns (n: nat)
    requires Drives(next, t)
    requires s.locks == map[] && 1 <= |seats| <= 10 && Distinct(seats) && 0 !in seats && event in s.events && s.events[event]
    ensures Reaches(next, With(s, t, Job(user, event, Sorted(seats), BkLock, 0, 0, NoSeat)), AfterBooking(s, t, user, event, seats), n) == true
  {
    SortedAscends(seats);
    var sorted := Sorted(seats);
    n := LocksAndOn(next, s, t, user, event, sorted);
    assert Seats(sorted[..0]) == [];
    NoLocks(s, t, Job(user, event, sorted, BkLock, 0, 0, NoSeat));
    NoLocks(s, t, Done(SeatsAnswer(s, event, sorted)));
    FilledNoLocks(s, t, user, event, sorted, Done(Ok));
  }

  lemma BeginAlone(first: State, begin: State, lock: State, s: State, t: Tid, user: Id, event: Id, seats: seq<Id>)
    requires t !in s.threads && GoodSeats(seats) && event in s.events && s.events[event]
    requires first == Arrive(s, t, BookReq(user, event, seats)) && begin == With(s, t, Job(user, event, seats, BkBegin, 0, 0, NoSeat))
    requires lock == With(s, t, Job(user, event, Sorted(seats), BkLock, 0, 0, NoSeat)) && |Active(begin)| == 0
    ensures Enabled(first, t) && Act(first, t) == begin && Enabled(begin, t) && Act(begin, t) == lock
  {
    assert Act(first, t).threads == begin.threads;
    assert Act(begin, t).threads == lock.threads;
  }

  // ---------------------------------------------------------------------------
  // Cancelling
  // ---------------------------------------------------------------------------

  ghost function CancelAnswer(s: State, id: Id, user: Id): Result {
    if id !in s.bookings then NotFound
    else if s.bookings[id].user != user then Auth
    else if s.bookings[id].status != Confirmed then Generic
    else Ok
  }

  ghost function AfterCancelling(s: State, t: Tid, id: Id, user: Id): State {
    var r := CancelAnswer(s, id, user);
    if r != Ok then s.(threads := s.threads[t := Done(r)])
    else s.(threads := s.threads[t := Done(Ok)], bookings := s.bookings[id := s.bookings[id].(status := Cancelled)],
            seats := SetSeats(s.seats, RowsOf(s.rows, id), Available, 0))
  }

  lemma {:induction false} AlreadySorted(s: seq<Id>)
    requires Ascending(s)
    ensures Sorted(s) == s
    decreases |s|
  {
    if s != [] {
      var rest := s[1..];
      assert forall i :: 0 <= i < |rest| ==> rest[i] == s[i + 1];
      AlreadySorted(rest);
      assert s == [s[0]] + rest;
    }
  }

  ghost function CJob(id: Id, user: Id, pc: CancelPc, found: Booking, seats: seq<Id>, i: nat, buf: Seat): Thread {
    Cancel(CancelJob(id, user, pc, found, seats, i, buf))
  }

  /** The tables once the first `m` seats are free. */
  ghost function Freeing(s: State, seats: seq<Id>, m: nat): State
    requires m <= |seats|
  {
    s.(seats := SetSeats(s.seats, seats[..m], Available, 0))
  }

  ghost function CancelLocks(id: Id, seats: seq<Id>, i: nat): seq<Record>
    requires i <= |seats|
  {
    [BookingRow(id)] + Seats(seats[..i])
  }

  lemma CancelLocksMore(id: Id, seats: seq<Id>, i: nat)
    requires i < |seats| && Distinct(seats)
    ensures CancelLocks(id, seats, i) + [SeatRow(seats[i])] == CancelLocks(id, seats, i + 1)
    ensures SeatRow(seats[i]) !in CancelLocks(id, seats, i)
  {
    SeatLocks(seats, i);
    NotYetLocked(seats, i);
    AppendAssoc([BookingRow(id)], Seats(seats[..i]), [SeatRow(seats[i])]);
  }

  lemma CancelLocksDistinct(id: Id, seats: seq<Id>)
    requires Distinct(seats)
    ensures Distinct(CancelLocks(id, seats, |seats|))
  {
    TakeAll(seats);
    SeatsDistinct(seats);
  }

  /** A cancellation in front of seat `i`, with the seats before it free. */
  ghost function Unseating(s: State, t: Tid, id: Id, user: Id, found: Booking, seats: seq<Id>, i: nat, buf: Seat): State
    requires i <= |seats|
  {
    At(Freeing(s, seats, i), t, CJob(id, user, CnSeatLock, found, seats, i, buf), CancelLocks(id, seats, i))
  }

  /** It has the lock of seat `i`, and reads or writes it. */
  ghost function Writing(s: State, t: Tid, id: Id, user: Id, found: Booking, seats: seq<Id>, i: nat, pc: CancelPc, buf: Seat): State
    requires i < |seats|
  {
    At(Freeing(s, seats, i), t, CJob(id, user, pc, found, seats, i, buf), CancelLocks(id, seats, i + 1))
  }

  lemma UnseatLock(s: State, t: Tid, id: Id, user: Id, found: Booking, seats: seq<Id>, i: nat, buf: Seat)
    requires i < |seats| && Distinct(seats)
    ensures var a := Unseating(s, t, id, user, found, seats, i, buf);
            Enabled(a, t) && Act(a, t) == Writing(s, t, id, user, found, seats, i, CnRead, buf)
  {
    CancelLocksMore(id, seats, i);
    LockMore(t, CancelLocks(id, seats, i), SeatRow(seats[i]));
    assert Act(Unseating(s, t, id, user, found, seats, i, buf), t).threads == Writing(s, t, id, user, found, seats, i, CnRead, buf).threads;
  }

  ghost function Freed1(s: State, x: Id): Seat
    requires x in s.seats
  {
    s.seats[x].(status := Available, bookedBy := 0)
  }

  lemma FreeingMore(s: State, seats: seq<Id>, i: nat)
    requires i < |seats| && Distinct(seats) && seats[i] in s.seats
    ensures var f := Freeing(s, seats, i);
            && seats[i] in f.seats && f.seats[seats[i]] == s.seats[seats[i]]
            && Freeing(s, seats, i + 1) == f.(seats := f.seats[seats[i] := Freed1(s, seats[i])])
  {
    assert seats[..i + 1] == seats[..i] + [seats[i]];
    assert seats[i] !in seats[..i];
  }

  lemma UnseatRead(s: State, t: Tid, id: Id, user: Id, found: Booking, seats: seq<Id>, i: nat, buf: Seat)
    requires i < |seats| && Distinct(seats) && seats[i] in s.seats
    ensures var a := Writing(s, t, id, user, found, seats, i, CnRead, buf);
            Enabled(a, t) && Act(a, t) == Writing(s, t, id, user, found, seats, i, CnFree, Freed1(s, seats[i]))
  {
    FreeingMore(s, seats, i);
    assert Act(Writing(s, t, id, user, found, seats, i, CnRead, buf), t).threads
        == Writing(s, t, id, user, found, seats, i, CnFree, Freed1(s, seats[i])).threads;
  }

  lemma UnseatWrite(s: State, t: Tid, id: Id, user: Id, found: Booking, seats: seq<Id>, i: nat)
    requires i < |seats| && Distinct(seats) && seats[i] in s.seats
    ensures var v := Freed1(s, seats[i]); var a := Writing(s, t, id, user, found, seats, i, CnFree, v);
            Enabled(a, t) && Act(a, t) == Unseating(s, t, id, user, found, seats, i + 1, v)
  {
    var v := Freed1(s, seats[i]);
    FreeingMore(s, seats, i);
    assert Act(Writing(s, t, id, user, found, seats, i, CnFree, v), t).threads == Unseating(s, t, id, user, found, seats, i + 1, v).threads;
  }

  lemma UnseatOne(next: Stepper, s: State, t: Tid, id: Id, user: Id, found: Booking, seats: seq<Id>, i: nat, buf: Seat, goal: State, k: nat) returns (n: nat)
    requires Drives(next, t)
    requires i < |seats| && Distinct(seats) && seats[i] in s.seats
    requires Reaches(next, Unseating(s, t, id, user, found, seats, i + 1, Freed1(s, seats[i])), goal, k) == true
    ensures Reaches(next, Unseating(s, t, id, user, found, seats, i, buf), goal, n) == true
  {
    var v := Freed1(s, seats[i]);
    UnseatWrite(s, t, id, user, found, seats, i);
    n := Stepping(next, Writing(s, t, id, user, found, seats, i, CnFree, v), Unseating(s, t, id, user, found, seats, i + 1, v), goal, k);
    UnseatRead(s, t, id, user, found, seats, i, buf);
    n := Stepping(next, Writing(s, t, id, user, found, seats, i, CnRead, buf), Writing(s, t, id, user, found, seats, i, CnFree, v), goal, n);
    UnseatLock(s, t, id, user, found, seats, i, buf);
    n := Stepping(next, Unseating(s, t, id, user, found, seats, i, buf), Writing(s, t, id, user, found, seats, i, CnRead, buf), goal, n);
  }

  lemma {:induction false} UnseatsAll(next: Stepper, s: State, t: Tid, id: Id, user: Id, found: Booking, seats: seq<Id>, i: nat, buf: Seat)
    returns (n: nat, last: Seat)
    requires Drives(next, t)
    requires i <= |seats| && Distinct(seats) && forall x :: x in seats ==> x in s.seats
    ensures Reaches(next, Unseating(s, t, id, user, found, seats, i, buf), Unseating(s, t, id, user, found, seats, |seats|, last), n) == true
    decreases |seats| - i
  {
    if i == |seats| {
      n, last := 0, buf;
      Staying(next, Unseating(s, t, id, user, found, seats, i, buf));
    } else {
      n, last := UnseatsAll(next, s, t, id, user, found, seats, i + 1, Freed1(s, seats[i]));
      n := UnseatOne(next, s, t, id, user, found, seats, i, buf, Unseating(s, t, id, user, found, seats, |seats|, last), n);
    }
  }

  /** All seats are free and the booking is marked. */
  ghost function Undone(s: State, id: Id, found: Booking, seats: seq<Id>): State {
    Freeing(s, seats, |seats|).(bookings := s.bookings[id := found.(status := Cancelled)])
  }

  /** After the last seat: the booking is marked and the transaction commits. */
  lemma CancelEnds(next: Stepper, s: State, t: Tid, id: Id, user: Id, found: Booking, seats: seq<Id>, buf: Seat) returns (n: nat)
    requires Drives(next, t)
    requires Distinct(seats)
    ensures Reaches(next, Unseating(s, t, id, user, found, seats, |seats|, buf), At(Undone(s, id, found, seats), t, Done(Ok), []), n) == true
  {
    var k, locks, all := |seats|, CancelLocks(id, seats, |seats|), Undone(s, id, found, seats);
    var a := Unseating(s, t, id, user, found, seats, k, buf);
    var b := At(Freeing(s, seats, k), t, CJob(id, user, CnMark, found, seats, k, buf), locks);
    var c := At(all, t, CJob(id, user, CnCommit, found, seats, k, buf), locks);
    var d, goal := At(all, t, Release(locks, Ok), locks), At(all, t, Done(Ok), []);
    CancelLocksDistinct(id, seats);
    n := ReleasesAll(next, all, t, locks, Ok);
    CommitCancel(all, t, id, user, found, seats, buf);
    n := Stepping(next, c, d, goal, n);
    MarkCancel(s, t, id, user, found, seats, buf);
    n := Stepping(next, b, c, goal, n);
    LastUnseated(s, t, id, user, found, seats, buf);
    n := Stepping(next, a, b, goal, n);
  }

  lemma CommitCancel(all: State, t: Tid, id: Id, user: Id, found: Booking, seats: seq<Id>, buf: Seat)
    ensures var locks := CancelLocks(id, seats, |seats|); var c := At(all, t, CJob(id, user, CnCommit, found, seats, |seats|, buf), locks);
            Enabled(c, t) && Act(c, t) == At(all, t, Release(locks, Ok), locks)
  {
    var locks := CancelLocks(id, seats, |seats|);
    assert Act(At(all, t, CJob(id, user, CnCommit, found, seats, |seats|, buf), locks), t).threads == At(all, t, Release(locks, Ok), locks).threads;
  }

  lemma LastUnseated(s: State, t: Tid, id: Id, user: Id, found: Booking, seats: seq<Id>, buf: Seat)
    ensures var k, a := |seats|, Unseating(s, t, id, user, found, seats, |seats|, buf);
            Enabled(a, t) && Act(a, t) == At(Freeing(s, seats, k), t, CJob(id, user, CnMark, found, seats, k, buf), CancelLocks(id, seats, k))
  {
    var k, a := |seats|, Unseating(s, t, id, user, found, seats, |seats|, buf);
    assert Act(a, t).threads == At(Freeing(s, seats, k), t, CJob(id, user, CnMark, found, seats, k, buf), CancelLocks(id, seats, k)).threads;
  }

  lemma MarkCancel(s: State, t: Tid, id: Id, user: Id, found: Booking, seats: seq<Id>, buf: Seat)
    ensures var k, locks := |seats|, CancelLocks(id, seats, |seats|);
            var b := At(Freeing(s, seats, k), t, CJob(id, user, CnMark, found, seats, k, buf), locks);
            Enabled(b, t) && Act(b, t) == At(Undone(s, id, found, seats), t, CJob(id, user, CnCommit, found, seats, k, buf), locks)
  {
    var k, locks := |seats|, CancelLocks(id, seats, |seats|);
    var b := At(Freeing(s, seats, k), t, CJob(id, user, CnMark, found, seats, k, buf), locks);
    assert Act(b, t).threads == At(Undone(s, id, found, seats), t, CJob(id, user, CnCommit, found, seats, k, buf), locks).threads;
  }

  lemma RowLocked(s: State, t: Tid, id: Id)
    requires s.locks == map[]
    ensures s.locks[BookingRow(id) := t] == LocksOf(t, [BookingRow(id)])
  {
  }

  /** The first two steps: a slot, and the lock of the booking's row. */
  lemma CancelStarts(s: State, t: Tid, id: Id, user: Id)
    requires Inv(s) && Quiet(s) && t !in s.threads
    ensures var a, b := Arrive(s, t, CancelReq(id, user)), With(s, t, CJob(id, user, CnLock, NoBooking, [], 0, NoSeat));
            && Enabled(a, t) && Act(a, t) == b && Enabled(b, t)
            && Act(b, t) == At(s, t, CJob(id, user, CnFind, NoBooking, [], 0, NoSeat), [BookingRow(id)])
  {
    var a, b := Arrive(s, t, CancelReq(id, user)), With(s, t, CJob(id, user, CnLock, NoBooking, [], 0, NoSeat));
    AtRest(s);
    AloneActive(s, t, CJob(id, user, CnBegin, NoBooking, [], 0, NoSeat));
    assert a == With(s, t, CJob(id, user, CnBegin, NoBooking, [], 0, NoSeat));
    assert Act(a, t).threads == b.threads;
    RowLocked(s, t, id);
    assert Act(b, t).threads == At(s, t, CJob(id, user, CnFind, NoBooking, [], 0, NoSeat), [BookingRow(id)]).threads;
  }

  lemma FindStep(s: State, t: Tid, id: Id, user: Id)
    ensures var a, r := At(s, t, CJob(id, user, CnFind, NoBooking, [], 0, NoSeat), [BookingRow(id)]), CancelAnswer(s, id, user);
            Enabled(a, t)
            && Act(a, t) == At(s, t, if r == Ok then CJob(id, user, CnScan, s.bookings[id], [], 0, NoSeat) else Release([BookingRow(id)], r),
                               [BookingRow(id)])
  {
    var a, r := At(s, t, CJob(id, user, CnFind, NoBooking, [], 0, NoSeat), [BookingRow(id)]), CancelAnswer(s, id, user);
    assert [BookingRow(id)] + [] == [BookingRow(id)];
    assert Act(a, t).threads == s.threads[t := if r == Ok then CJob(id, user, CnScan, s.bookings[id], [], 0, NoSeat) else Release([BookingRow(id)], r)];
  }

  lemma ScanStep(s: State, t: Tid, id: Id, user: Id, found: Booking)
    requires TablesOk(s)
    ensures var a, seats := At(s, t, CJob(id, user, CnScan, found, [], 0, NoSeat), [BookingRow(id)]), RowsOf(s.rows, id);
            Enabled(a, t) && Act(a, t) == Unseating(s, t, id, user, found, seats, 0, NoSeat)
  {
    var a, seats := At(s, t, CJob(id, user, CnScan, found, [], 0, NoSeat), [BookingRow(id)]), RowsOf(s.rows, id);
    AlreadySorted(seats);
    assert CancelLocks(id, seats, 0) == [BookingRow(id)] && SetSeats(s.seats, seats[..0], Available, 0) == s.seats;
    assert Act(a, t).threads == Unseating(s, t, id, user, found, seats, 0, NoSeat).threads;
  }

  lemma CancelNoLocks(s: State, t: Tid, id: Id, user: Id)
    requires s.locks == map[]
    ensures var r := CancelAnswer(s, id, user);
            AfterCancelling(s, t, id, user)
            == if r == Ok then At(Undone(s, id, s.bookings[id], RowsOf(s.rows, id)), t, Done(Ok), []) else At(s, t, Done(r), [])
  {
    assert LocksOf(t, []) == map[];
    TakeAll(RowsOf(s.rows, id));
  }

  /** A cancellation that found its booking. */
  lemma CancelGoesThrough(next: Stepper, s: State, t: Tid, id: Id, user: Id) returns (n: nat)
    requires Drives(next, t)
    requires Inv(s) && CancelAnswer(s, id, user) == Ok
    ensures Reaches(next, At(s, t, CJob(id, user, CnScan, s.bookings[id], [], 0, NoSeat), [BookingRow(id)]),
                    At(Undone(s, id, s.bookings[id], RowsOf(s.rows, id)), t, Done(Ok), []), n) == true
  {
    var found, seats := s.bookings[id], RowsOf(s.rows, id);
    var goal := At(Undone(s, id, found, seats), t, Done(Ok), []);
    assert Ascending(seats) && Distinct(seats) && forall x :: x in seats ==> x in s.seats;
    var m, last := UnseatsAll(next, s, t, id, user, found, seats, 0, NoSeat);
    n := CancelEnds(next, s, t, id, user, found, seats, last);
    n := Joining(next, Unseating(s, t, id, user, found, seats, 0, NoSeat), Unseating(s, t, id, user, found, seats, |seats|, last), goal, m, n);
    ScanStep(s, t, id, user, found);
    n := Stepping(next, At(s, t, CJob(id, user, CnScan, found, [], 0, NoSeat), [BookingRow(id)]),
                  Unseating(s, t, id, user, found, seats, 0, NoSeat), goal, n);
  }

  /** A cancellation that runs alone from a state at rest. */
  lemma CancelRuns(next: Stepper, s: State, t: Tid, id: Id, user: Id) returns (n: nat)
    requires Drives(next, t)
    requires Inv(s) && Quiet(s) && t !in s.threads
    ensures Reaches(next, Arrive(s, t, CancelReq(id, user)), AfterCancelling(s, t, id, user), n) == true
  {
    var r, goal := CancelAnswer(s, id, user), AfterCancelling(s, t, id, user);
    var find := At(s, t, CJob(id, user, CnFind, NoBooking, [], 0, NoSeat), [BookingRow(id)]);
    AtRest(s);
    CancelNoLocks(s, t, id, user);
    FindStep(s, t, id, user);
    if r == Ok {
      n := CancelGoesThrough(next, s, t, id, user);
      n := Stepping(next, find, At(s, t, CJob(id, user, CnScan, s.bookings[id], [], 0, NoSeat), [BookingRow(id)]), goal, n);
    } else {
      n := ReleasesAll(next, s, t, [BookingRow(id)], r);
      n := Stepping(next, find, At(s, t, Release([BookingRow(id)], r), [BookingRow(id)]), goal, n);
    }
    CancelStarts(s, t, id, user);
    n := Stepping(next, With(s, t, CJob(id, user, CnLock, NoBooking, [], 0, NoSeat)), find, goal, n);
    n := Stepping(next, Arrive(s, t, CancelReq(id, user)), With(s, t, CJob(id, user, CnLock, NoBooking, [], 0, NoSeat)), goal, n);
  }

  // ---------------------------------------------------------------------------
  // Creating an event
  // ---------------------------------------------------------------------------

  ghost function GridIds(first: Id, n: nat): set<Id> {
    if n == 0 then {} else GridIds(first, n - 1) + {first + n - 1}
  }

  ghost function GridSeats(event: Id, first: Id, n: nat): map<Id, Seat> {
    map x | x in GridIds(first, n) :: Seat(event, Available, 0)
  }

  /** The event is there with the first `made` seats of its grid. */
  ghost function Growing(s: State, made: nat): State {
    s.(events := s.events[s.nextEvent := true], nextEvent := s.nextEvent + 1,
       seats := s.seats + GridSeats(s.nextEvent, s.nextSeat, made), nextSeat := s.nextSeat + made)
  }

  ghost function AfterCreating(s: State, t: Tid, rows: nat, cols: nat): State {
    if 1 <= rows <= 26 && 1 <= cols <= 100 then Growing(s, rows * cols).(threads := s.threads[t := Done(Ok)])
    else s.(threads := s.threads[t := Done(InvalidArg)])
  }

  ghost function Creating(s: State, t: Tid, rows: nat, cols: nat, made: nat): State {
    Growing(s, made).(threads := s.threads[t := Create(s.nextEvent, rows, cols, made)])
  }

  lemma GridMore(s: State, made: nat)
    ensures s.seats + GridSeats(s.nextEvent, s.nextSeat, made + 1)
         == (s.seats + GridSeats(s.nextEvent, s.nextSeat, made))[s.nextSeat + made := Seat(s.nextEvent, Available, 0)]
  {
  }

  lemma CreateOne(s: State, t: Tid, rows: nat, cols: nat, made: nat)
    ensures var a := Creating(s, t, rows, cols, made);
            Enabled(a, t)
            && Act(a, t) == if made < rows * cols then Creating(s, t, rows, cols, made + 1) else Growing(s, made).(threads := s.threads[t := Done(Ok)])
  {
    var a := Creating(s, t, rows, cols, made);
    GridMore(s, made);
    assert s.threads[t := Create(s.nextEvent, rows, cols, made)][t := Done(Ok)] == s.threads[t := Done(Ok)];
    assert s.threads[t := Create(s.nextEvent, rows, cols, made)][t := Create(s.nextEvent, rows, cols, made + 1)]
        == s.threads[t := Create(s.nextEvent, rows, cols, made + 1)];
  }

  lemma {:induction false} CreatesAll(next: Stepper, s: State, t: Tid, rows: nat, cols: nat, made: nat) returns (n: nat)
    requires Drives(next, t)
    requires made <= rows * cols
    ensures Reaches(next, Creating(s, t, rows, cols, made), Growing(s, rows * cols).(threads := s.threads[t := Done(Ok)]), n) == true
    decreases rows * cols - made
  {
    var goal := Growing(s, rows * cols).(threads := s.threads[t := Done(Ok)]);
    CreateOne(s, t, rows, cols, made);
    if made < rows * cols {
      n := CreatesAll(next, s, t, rows, cols, made + 1);
      n := Stepping(next, Creating(s, t, rows, cols, made), Creating(s, t, rows, cols, made + 1), goal, n);
    } else {
      n := Single(next, Creating(s, t, rows, cols, made), goal);
    }
  }

  lemma CreateRuns(next: Stepper, s: State, t: Tid, rows: nat, cols: nat) returns (n: nat)
    requires Drives(next, t)
    requires t !in s.threads
    ensures Reaches(next, Arrive(s, t, CreateReq(rows, cols)), AfterCreating(s, t, rows, cols), n) == true
  {
    if 1 <= rows <= 26 && 1 <= cols <= 100 {
      assert s.seats + GridSeats(s.nextEvent, s.nextSeat, 0) == s.seats;
      assert Arrive(s, t, CreateReq(rows, cols)) == Creating(s, t, rows, cols, 0);
      n := CreatesAll(next, s, t, rows, cols, 0);
    } else {
      n := 0;
      assert Reaches(next, Arrive(s, t, CreateReq(rows, cols)), AfterCreating(s, t, rows, cols), 0);
    }
  }

  // ---------------------------------------------------------------------------
  // Answers
  // ---------------------------------------------------------------------------

  ghost function Answered(s: State, t: Tid, q: Request): State {
    match q
    case BookReq(user, event, seats) => AfterBooking(s, t, user, event, seats)
    case CancelReq(booking, user) => AfterCancelling(s, t, booking, user)
    case CreateReq(rows, cols) => AfterCreating(s, t, rows, cols)
  }

  /** Whatever the request, alone from rest it ends, and every run of it to its answer ends in the one state. */
  lemma AloneExactly(s: State, t: Tid, q: Request, k: nat)
    requires Inv(s) && Quiet(s) && t !in s.threads
    requires var a := Arrive(s, t, q); Runs(a, Times(t, k)) && t in After(a, Times(t, k)).threads && After(a, Times(t, k)).threads[t].Done?
    ensures After(Arrive(s, t, q), Times(t, k)) == Answered(s, t, q)
  {
    var n := AloneEnds(s, t, q);
    OneWay(Arrive(s, t, q), t, Answered(s, t, q), n, k);
  }

  lemma AloneEnds(s: State, t: Tid, q: Request) returns (n: nat)
    requires Inv(s) && Quiet(s) && t !in s.threads
    ensures Reaches(Alone(t), Arrive(s, t, q), Answered(s, t, q), n)
    ensures t in Answered(s, t, q).threads && Answered(s, t, q).threads[t].Done?
    ensures Runs(Arrive(s, t, q), Times(t, n)) && After(Arrive(s, t, q), Times(t, n)) == Answered(s, t, q)
  {
    match q {
      case BookReq(user, event, seats) => n := BookRuns(Alone(t), s, t, user, event, seats);
      case CancelReq(booking, user) => n := CancelRuns(Alone(t), s, t, booking, user);
      case CreateReq(rows, cols) => n := CreateRuns(Alone(t), s, t, rows, cols);
    }
    ReachesRuns(Arrive(s, t, q), t, Answered(s, t, q), n);
  }

  /** A booking alone is answered Ok if and only if its event is there and active, and its seats are one to ten different
      ones, there, of that event and available. Otherwise the tables stay as they are, and the answer names what is wrong. */
  lemma BookOkExactly(s: State, t: Tid, user: Id, event: Id, seats: seq<Id>)
    ensures t in AfterBooking(s, t, user, event, seats).threads && AfterBooking(s, t, user, event, seats).threads[t].Done?
    ensures var good := 1 <= |seats| <= 10 && Distinct(seats) && 0 !in seats;
            var r := AfterBooking(s, t, user, event, seats).threads[t].result;
            && (r == Ok <==> good && event in s.events && s.events[event]
                             && forall x :: x in seats ==> x in s.seats && s.seats[x].event == event && s.seats[x].status == Available)
            && (r != Ok ==> AfterBooking(s, t, user, event, seats) == s.(threads := s.threads[t := Done(r)]))
            && (!good ==> r == InvalidArg) && (good && event !in s.events ==> r == NotFound)
            && (good && event in s.events && !s.events[event] ==> r == Generic)
            && (good && event in s.events && s.events[event] && r != Ok ==> exists x :: x in seats && SeatAnswer(s, event, x) == r)
  {
    if 1 <= |seats| <= 10 && Distinct(seats) && 0 !in seats {
      SortedAscends(seats);
      SeatsOkExactly(s, event, Sorted(seats));
    }
  }

  /** A booking answered Ok has a new number, its user's name on just its seats, and a row for each of them. */
  lemma BookedWhat(s: State, t: Tid, user: Id, event: Id, seats: seq<Id>)
    requires TablesOk(s) && BookAnswer(s, event, seats) == Ok
    ensures var f, nb := AfterBooking(s, t, user, event, seats), s.nextBooking;
            && nb !in s.bookings && f.bookings == s.bookings[nb := Booking(user, event, |seats|, Confirmed)]
            && (forall x :: x in s.seats <==> x in f.seats)
            && (forall x :: x in s.seats ==> f.seats[x] == if x in seats then Seat(event, Booked, user) else s.seats[x])
            && s.rows <= f.rows && |f.rows| == |s.rows| + |seats|
            && (forall x :: x in seats <==> Junction(nb, x) in f.rows[|s.rows|..])
            && f.events == s.events && f.locks == s.locks
  {
    SortedAscends(seats);
    SeatsOkExactly(s, event, Sorted(seats));
    var sorted, nb := Sorted(seats), s.nextBooking;
    TakeAll(sorted);
    var f := AfterBooking(s, t, user, event, seats);
    assert f.rows[|s.rows|..] == RowsFor(nb, sorted);
    forall x | x in seats ensures Junction(nb, x) in RowsFor(nb, sorted) {
      var k :| 0 <= k < |sorted| && sorted[k] == x;
      assert RowsFor(nb, sorted)[k] == Junction(nb, x);
    }
  }

  /** A cancellation alone is answered Ok if and only if the booking is there, the user's own and confirmed. Otherwise the
      tables stay as they are, and the answer names what is wrong. */
  lemma CancelOkExactly(s: State, t: Tid, id: Id, user: Id)
    ensures t in AfterCancelling(s, t, id, user).threads && AfterCancelling(s, t, id, user).threads[t].Done?
    ensures var f, r := AfterCancelling(s, t, id, user), AfterCancelling(s, t, id, user).threads[t].result;
            && (r == Ok <==> id in s.bookings && s.bookings[id].user == user && s.bookings[id].status == Confirmed)
            && (r != Ok ==> f == s.(threads := s.threads[t := Done(r)]))
            && (id !in s.bookings ==> r == NotFound)
            && (id in s.bookings && s.bookings[id].user != user ==> r == Auth)
            && (id in s.bookings && s.bookings[id].user == user && s.bookings[id].status != Confirmed ==> r == Generic)
  {
  }

  /** A cancellation answered Ok frees just the seats the booking has rows for, and marks just that booking. */
  lemma CancelledWhat(s: State, t: Tid, id: Id, user: Id)
    requires CancelAnswer(s, id, user) == Ok
    ensures var f := AfterCancelling(s, t, id, user);
            && (forall b :: b in s.bookings <==> b in f.bookings)
            && (forall b :: b in s.bookings ==> f.bookings[b] == if b == id then s.bookings[b].(status := Cancelled) else s.bookings[b])
            && (forall x :: x in s.seats <==> x in f.seats)
            && (forall x :: x in s.seats ==>
                  f.seats[x] == if x in RowsOf(s.rows, id) then Seat(s.seats[x].event, Available, 0) else s.seats[x])
            && f.rows == s.rows && f.events == s.events && f.locks == s.locks
  {
  }

  lemma {:induction false} GridIdsAre(first: Id, n: nat)
    ensures forall x :: x in GridIds(first, n) <==> first <= x < first + n
    ensures |GridIds(first, n)| == n
    decreases n
  {
    if n > 0 {
      GridIdsAre(first, n - 1);
    }
  }

  lemma GridUnion(m: map<Id, Seat>, event: Id, first: Id, n: nat)
    requires forall x :: x in m ==> x < first
    ensures var g, ids := m + GridSeats(event, first, n), GridIds(first, n);
            && (forall x :: x in m ==> x in g && g[x] == m[x])
            && g.Keys == m.Keys + ids && m.Keys !! ids && |ids| == n
            && forall x :: x in ids ==> g[x] == Seat(event, Available, 0)
  {
    GridIdsAre(first, n);
    assert GridSeats(event, first, n).Keys == GridIds(first, n);
  }

  /** `seats` are the seats of `s` and `n` more, with new numbers, available and of event `e`. */
  ghost predicate SeatsAdded(s: State, seats: map<Id, Seat>, e: Id, n: nat) {
    var ids := GridIds(s.nextSeat, n);
    && (forall x :: x in s.seats ==> x in seats && seats[x] == s.seats[x])
    && seats.Keys == s.seats.Keys + ids && s.seats.Keys !! ids && |ids| == n
    && forall x :: x in ids ==> seats[x] == Seat(e, Available, 0)
  }

  lemma GridAdded(s: State, n: nat)
    requires TablesOk(s)
    ensures SeatsAdded(s, Growing(s, n).seats, s.nextEvent, n) == true
  {
    GridUnion(s.seats, s.nextEvent, s.nextSeat, n);
  }

  /** A new event is active and has one available seat for each place of its grid, of one to 26 rows of one to 100 seats;
      any other grid is refused. */
  lemma CreatedWhat(s: State, t: Tid, rows: nat, cols: nat)
    requires TablesOk(s)
    ensures var f, e, good := AfterCreating(s, t, rows, cols), s.nextEvent, 1 <= rows <= 26 && 1 <= cols <= 100;
            && t in f.threads && f.threads[t] == Done(if good then Ok else InvalidArg)
            && (!good ==> f == s.(threads := s.threads[t := Done(InvalidArg)]))
            && (good ==>
                  && f.events == s.events[e := true] && f.bookings == s.bookings && f.rows == s.rows
                  && SeatsAdded(s, f.seats, e, rows * cols) == true)
  {
    var n := rows * cols;
    assert SeatsAdded(s, Growing(s, n).seats, s.nextEvent, n) == true by {
      GridAdded(s, n);
    }
    if 1 <= rows <= 26 && 1 <= cols <= 100 {
      assert AfterCreating(s, t, rows, cols) == Growing(s, n).(threads := s.threads[t := Done(Ok)]);
    }
  }
}
