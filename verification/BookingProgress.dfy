// Deadlock freedom: every transaction locks its booking row first and seats in ascending order, so waiting threads
// form no cycle.
module BookingProgress {
  import opened BookingModel
  import opened BookingSafety
  import opened Common

  /** The seats locked beyond `x`. */
  ghost function LockedAbove(s: State, x: int): set<Record> {
    set r | r in s.locks && r.SeatRow? && r.id > x
  }

  lemma FewerAbove(s: State, x: int, y: Id)
    requires SeatRow(y) in s.locks && y > x
    ensures |LockedAbove(s, y)| < |LockedAbove(s, x)|
  {
    var a, b := LockedAbove(s, y), LockedAbove(s, x);
    assert a <= b - {SeatRow(y)} && SeatRow(y) in b;
    SubsetSize(a, b - {SeatRow(y)});
  }

  /** A thread that holds a seat waits only for a larger one; one that holds a booking row waits only for seats. */
  lemma WaitsUpward(s: State, t: Tid, held: Record)
    requires Inv(s) && t in s.threads && Holds(s.threads[t], held) && Wants(s.threads[t]).Some?
    ensures var r := Wants(s.threads[t]).value; r.SeatRow? && (held.SeatRow? ==> held.id < r.id)
  {
    assert ThreadOk(s, s.threads[t]);
  }

  /** How far down the waiting order a thread's wish still leaves: booking rows before seats, low seats before high. */
  ghost function Rank(s: State, th: Thread): (nat, nat) {
    match Wants(th)
    case None => (0, 0)
    case Some(r) => if r.BookingRow? then (1, 0) else (0, 1 + |LockedAbove(s, r.id)|)
  }

  lemma {:induction false} Mover(s: State, t: Tid) returns (u: Tid)
    requires Inv(s) && t in s.threads && !s.threads[t].Done?
    ensures Enabled(s, u)
    decreases Rank(s, s.threads[t]).0, Rank(s, s.threads[t]).1
  {
    u := t;
    if !Enabled(s, t) {
      var r := Wants(s.threads[t]).value;
      var v := s.locks[r];
      assert v in s.threads && Holds(s.threads[v], r);
      if Wants(s.threads[v]).Some? {
        WaitsUpward(s, v, r);
        if r.SeatRow? && !Enabled(s, v) {
          FewerAbove(s, r.id, Wants(s.threads[v]).value.id);
        }
      }
      if Enabled(s, v) {
        u := v;
      } else {
        u := Mover(s, v);
      }
    }
  }

  /** While some request is unfinished, some thread can step. */
  lemma NoDeadlock(s: State)
    requires Inv(s) && exists t :: t in s.threads && !s.threads[t].Done?
    ensures exists u :: Enabled(s, u)
  {
    var t :| t in s.threads && !s.threads[t].Done?;
    var u := Mover(s, t);
  }

  // ---------------------------------------------------------------------------
  // Every request finishes
  // ---------------------------------------------------------------------------

  function BookRest(n: nat, j: BookJob): int {
    match j.pc
    case BkCommit => n + 2
    case BkMark => 3 * (n - j.i) + n + 1
    case BkRead => 3 * (n - j.i) + n + 2
    case BkRow => 3 * (n - j.i) + n + 3
    case BkInsert => 4 * n + 4
    case BkCheck => (n - j.i) + 4 * n + 5
    case BkLock => (n - j.i) + 5 * n + 6
    case BkBegin => 6 * n + 7
    case BkEvent => 6 * n + 8
  }

  function CancelRest(n: nat, j: CancelJob): int {
    match j.pc
    case CnCommit => n + 3
    case CnMark => n + 4
    case CnFree => 3 * (n - j.i) + n + 3
    case CnRead => 3 * (n - j.i) + n + 4
    case CnSeatLock => 3 * (n - j.i) + n + 5
    case CnScan => 4 * MAX_SEATS + 6
    case CnFind => 4 * MAX_SEATS + 7
    case CnLock => 4 * MAX_SEATS + 8
    case CnBegin => 4 * MAX_SEATS + 9
  }

  /** An upper bound on the steps a thread still takes. */
  function Rest(th: Thread): int {
    match th
    case Book(j) => BookRest(|j.seats|, j)
    case Cancel(j) => CancelRest(|j.seats|, j)
    case Create(_, rows, cols, made) => if made < rows * cols then rows * cols - made + 1 else 1
    case Release(held, _) => |held| + 1
    case Done(_) => 0
  }

  lemma RestPositive(s: State, th: Thread)
    requires ThreadOk(s, th)
    ensures Rest(th) >= 0
  {
  }

  lemma StepShortens(s: State, t: Tid)
    requires Inv(s) && Enabled(s, t)
    ensures t in Act(s, t).threads && Act(s, t).threads == s.threads[t := Act(s, t).threads[t]]
    ensures Rest(Act(s, t).threads[t]) < Rest(s.threads[t])
  {
    match s.threads[t]
    case Book(j) => BookShortens(s, t);
    case Cancel(j) => CancelShortens(s, t);
    case Create(_, _, _, _) => CreateShortens(s, t);
    case Release(_, _) => ReleaseShortens(s, t);
  }

  lemma CreateShortens(s: State, t: Tid)
    requires t in s.threads && s.threads[t].Create?
    ensures t in ActCreate(s, t).threads && ActCreate(s, t).threads == s.threads[t := ActCreate(s, t).threads[t]]
    ensures Rest(ActCreate(s, t).threads[t]) < Rest(s.threads[t])
  {
  }

  lemma ReleaseShortens(s: State, t: Tid)
    requires t in s.threads && s.threads[t].Release?
    ensures t in ActRelease(s, t).threads && ActRelease(s, t).threads == s.threads[t := ActRelease(s, t).threads[t]]
    ensures Rest(ActRelease(s, t).threads[t]) < Rest(s.threads[t])
  {
  }

  lemma BookShortens(s: State, t: Tid)
    requires Inv(s) && Enabled(s, t) && s.threads[t].Book?
    ensures t in ActBook(s, t).threads && ActBook(s, t).threads == s.threads[t := ActBook(s, t).threads[t]]
    ensures Rest(ActBook(s, t).threads[t]) < Rest(s.threads[t])
  {
    var j := s.threads[t].b;
    BookBounds(s, t);
    SortedAscends(j.seats);
    BookStepRest(s, t);
  }

  lemma BookBounds(s: State, t: Tid)
    requires Inv(s) && t in s.threads && s.threads[t].Book?
    ensures var j := s.threads[t].b; Distinct(j.seats) && j.i <= |j.seats| && (j.pc == BkRead || j.pc == BkMark ==> j.i < |j.seats|)
  {
    assert ThreadOk(s, s.threads[t]);
  }

  lemma BookStepRest(s: State, t: Tid)
    requires t in s.threads && s.threads[t].Book?
    requires var j := s.threads[t].b;
             |Sorted(j.seats)| == |j.seats| && j.i <= |j.seats| && (j.pc == BkRead || j.pc == BkMark ==> j.i < |j.seats|)
    ensures t in ActBook(s, t).threads && ActBook(s, t).threads == s.threads[t := ActBook(s, t).threads[t]]
    ensures Rest(ActBook(s, t).threads[t]) < Rest(s.threads[t])
  {
    match s.threads[t].b.pc {
      case BkEvent =>
      case BkBegin =>
      case BkLock =>
      case BkCheck =>
      case BkInsert =>
      case BkRow =>
      case BkRead =>
      case BkMark =>
      case BkCommit =>
    }
  }

  lemma CancelShortens(s: State, t: Tid)
    requires Inv(s) && Enabled(s, t) && s.threads[t].Cancel?
    ensures t in ActCancel(s, t).threads && ActCancel(s, t).threads == s.threads[t := ActCancel(s, t).threads[t]]
    ensures Rest(ActCancel(s, t).threads[t]) < Rest(s.threads[t])
  {
    CancelBounds(s, t);
    CancelStepRest(s, t);
  }

  lemma CancelBounds(s: State, t: Tid)
    requires Inv(s) && t in s.threads && s.threads[t].Cancel?
    ensures var j := s.threads[t].c; j.i <= |j.seats| && (j.pc == CnRead || j.pc == CnFree ==> j.i < |j.seats|)
    ensures |Sorted(Take(RowsOf(s.rows, s.threads[t].c.id), MAX_SEATS))| <= MAX_SEATS
  {
    var j := s.threads[t].c;
    assert ThreadOk(s, s.threads[t]);
    var rows := RowsOf(s.rows, j.id);
    assert Ascending(rows) && Distinct(rows) && Take(rows, MAX_SEATS) == rows;
    SortedAscends(rows);
  }

  lemma CancelStepRest(s: State, t: Tid)
    requires t in s.threads && s.threads[t].Cancel?
    requires var j := s.threads[t].c; j.i <= |j.seats| && (j.pc == CnRead || j.pc == CnFree ==> j.i < |j.seats|)
    requires |Sorted(Take(RowsOf(s.rows, s.threads[t].c.id), MAX_SEATS))| <= MAX_SEATS
    ensures t in ActCancel(s, t).threads && ActCancel(s, t).threads == s.threads[t := ActCancel(s, t).threads[t]]
    ensures Rest(ActCancel(s, t).threads[t]) < Rest(s.threads[t])
  {
    match s.threads[t].c.pc {
      case CnBegin =>
      case CnLock =>
      case CnFind =>
      case CnScan =>
      case CnSeatLock =>
      case CnRead =>
      case CnFree =>
      case CnMark =>
      case CnCommit =>
    }
  }

  /** The steps all threads together still take, at most. */
  ghost function Total(threads: map<Tid, Thread>): int
    decreases |threads.Keys|
  {
    if threads == map[] then 0 else
      var t :| t in threads;
      assert |(threads - {t}).Keys| < |threads.Keys| by {
        assert (threads - {t}).Keys == threads.Keys - {t};
      }
      Rest(threads[t]) + Total(threads - {t})
  }

  lemma {:induction false} TotalWithout(m: map<Tid, Thread>, t: Tid)
    requires t in m
    ensures Total(m) == Rest(m[t]) + Total(m - {t})
    decreases |m.Keys|
  {
    var u :| u in m && Total(m) == Rest(m[u]) + Total(m - {u});
    if u != t {
      assert (m - {u}).Keys == m.Keys - {u} && (m - {t}).Keys == m.Keys - {t};
      TotalWithout(m - {u}, t);
      TotalWithout(m - {t}, u);
      assert m - {u} - {t} == m - {t} - {u};
    }
  }

  lemma {:induction false} TotalPositive(s: State, m: map<Tid, Thread>)
    requires forall t :: t in m ==> ThreadOk(s, m[t])
    ensures Total(m) >= 0
    decreases |m.Keys|
  {
    if m != map[] {
      var t :| t in m && Total(m) == Rest(m[t]) + Total(m - {t});
      RestPositive(s, m[t]);
      assert (m - {t}).Keys == m.Keys - {t};
      TotalPositive(s, m - {t});
    }
  }

  ghost predicate OnlySteps(ms: seq<Move>) {
    forall i :: 0 <= i < |ms| ==> ms[i].Acts?
  }

  /** Whatever the schedule, the requests at hand take at most `Total` steps between them: none runs forever. */
  lemma {:induction false} RunsAreShort(s: State, ms: seq<Move>)
    requires Inv(s) && Runs(s, ms) && OnlySteps(ms)
    ensures |ms| <= Total(s.threads)
    decreases |ms|
  {
    forall t | t in s.threads ensures ThreadOk(s, s.threads[t]) {}
    TotalPositive(s, s.threads);
    if ms != [] {
      var t := ms[0].t;
      var s' := Act(s, t);
      StepShortens(s, t);
      MoveInv(s, ms[0]);
      TotalWithout(s.threads, t);
      TotalWithout(s'.threads, t);
      assert s'.threads - {t} == s.threads - {t};
      assert OnlySteps(ms[1..]);
      RunsAreShort(s', ms[1..]);
    }
  }

  /** A run that cannot be continued has answered every request. */
  lemma StuckIsFinished(s: State)
    requires Inv(s) && forall t :: !Enabled(s, t)
    ensures forall t :: t in s.threads ==> s.threads[t].Done?
  {
    if exists t :: t in s.threads && !s.threads[t].Done? {
      NoDeadlock(s);
    }
  }
}
