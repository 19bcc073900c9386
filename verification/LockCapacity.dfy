// The lock array of a transaction has 64 places. txn_lock looks whether there is room in its first section and writes in its
// last, so threads that share a transaction can write past the end; a transaction locked for by one thread never does.
module LockCapacity {
  import opened LockModel
  import opened LockSafety
  import opened LockOwners
  import opened Common

  /** Every transaction's locks fit its array. */
  ghost predicate Fits(s: State) {
    forall i :: 0 <= i < |s.txns| ==> |s.txns[i].locks| <= MAX_LOCKS_PER_TXN
  }

  /** They do so all along a run. */
  ghost predicate AlwaysFits(s: State, ms: seq<Move>)
    requires |s.buckets| == LOCK_TABLE_SIZE && Runs(s, ms)
    decreases |ms|
  {
    Fits(s) && (ms != [] ==> AlwaysFits(Moved(s, ms[0]), ms[1..]))
  }

  /** What txn_lock does not ask again: a section that registers a lock finds a place for it. */
  ghost predicate FindsRoom(s: State, m: Move)
    requires CanMove(s, m)
  {
    m.Proceeds? && s.threads[m.t].Acquired? ==>
      var i := FindTxn(s.txns, s.threads[m.t].txn);
      i < |s.txns| ==> |s.txns[i].locks| < MAX_LOCKS_PER_TXN
  }

  ghost predicate AlwaysRoom(s: State, ms: seq<Move>)
    requires |s.buckets| == LOCK_TABLE_SIZE && Runs(s, ms)
    decreases |ms|
  {
    ms != [] ==> FindsRoom(s, ms[0]) && AlwaysRoom(Moved(s, ms[0]), ms[1..])
  }

  /** Only a registration makes a transaction's list longer. */
  lemma FitsNext(s: State, m: Move)
    requires Inv(s) && CanMove(s, m) && Fits(s)
    ensures Fits(Moved(s, m)) <==> FindsRoom(s, m)
  {
    if m.Proceeds? {
      match s.threads[m.t]
      case Requesting(_, _, _) => EnterShape(s, m.t);
      case Woken(_, _, _, _) => EnterShape(s, m.t);
      case Acquired(id, k) => RegisterFits(s, m.t, id, k);
      case Orphan(k) => UnlockShape(s, k);
      case Releasing(rest) =>
        if rest != [] {
          UnlockShape(s, rest[0]);
        }
    }
  }

  lemma RegisterFits(s: State, t: nat, id: TxnId, k: Key)
    requires t < |s.threads| && Fits(s)
    ensures var i := FindTxn(s.txns, id);
            Fits(LockRegister(s, t, id, k)) <==> (i < |s.txns| ==> |s.txns[i].locks| < MAX_LOCKS_PER_TXN)
  {
    var s', i := LockRegister(s, t, id, k), FindTxn(s.txns, id);
    if i < |s.txns| {
      assert s'.txns[i].locks == s.txns[i].locks + [k];
      assert forall j :: 0 <= j < |s.txns| && j != i ==> s'.txns[j] == s.txns[j];
    }
  }

  /** No run writes past an array if and only if every registration finds room. */
  lemma {:induction false} FitsExactly(s: State, ms: seq<Move>)
    requires Inv(s) && Fits(s) && Runs(s, ms)
    ensures AlwaysFits(s, ms) <==> AlwaysRoom(s, ms)
    decreases |ms|
  {
    if ms != [] {
      MoveInv(s, ms[0]);
      FitsNext(s, ms[0]);
      if Fits(Moved(s, ms[0])) {
        FitsExactly(Moved(s, ms[0]), ms[1..]);
      } else {
        NotFitting(Moved(s, ms[0]), ms[1..]);
      }
    }
  }

  lemma NotFitting(s: State, ms: seq<Move>)
    requires |s.buckets| == LOCK_TABLE_SIZE && Runs(s, ms) && !Fits(s)
    ensures !AlwaysFits(s, ms)
  {
  }

  // ---------------------------------------------------------------------------
  // One thread per transaction
  // ---------------------------------------------------------------------------

  /** A thread that has seen room for a lock of transaction `id`, and has not registered the lock yet. */
  ghost predicate Past(pc: Pc, id: TxnId) {
    (pc.Requesting? || pc.Asleep? || pc.Woken? || pc.Acquired?) && pc.txn == id
  }

  ghost function Coming(s: State, drv: Drivers, id: TxnId): nat {
    if drv(id) < |s.threads| && Past(s.threads[drv(id)], id) then 1 else 0
  }

  /** The place a driver has seen is still free. */
  ghost predicate Reserved(s: State, drv: Drivers) {
    forall i :: 0 <= i < |s.txns| && s.txns[i].active ==> |s.txns[i].locks| + Coming(s, drv, s.txns[i].id) <= MAX_LOCKS_PER_TXN
  }

  lemma ReservedFits(s: State, drv: Drivers)
    requires SlotsOk(s) && Reserved(s, drv)
    ensures Fits(s)
  {
  }

  /** A section that leaves slots alone and lets nobody past the test. */
  lemma NobodyPast(s: State, s': State, drv: Drivers)
    requires Reserved(s, drv) && s'.txns == s.txns && |s'.threads| == |s.threads|
    requires forall t, id :: 0 <= t < |s.threads| && Past(s'.threads[t], id) ==> Past(s.threads[t], id)
    ensures Reserved(s', drv) == true
  {
    forall i | 0 <= i < |s.txns| && s.txns[i].active ensures Coming(s', drv, s.txns[i].id) <= Coming(s, drv, s.txns[i].id) {}
  }

  lemma BeginReserved(s: State, t: nat, drv: Drivers)
    requires SlotsOk(s) && Reserved(s, drv) && t < |s.threads| && s.threads[t].Idle?
    ensures Reserved(Begin(s, t), drv) == true
  {
    var s', i := Begin(s, t), FreeSlot(s.txns);
    forall id ensures Coming(s', drv, id) <= Coming(s, drv, id) {}
    forall j | 0 <= j < |s'.txns| && j != i ensures s'.txns[j] == s.txns[j] {}
  }

  lemma CheckReserved(s: State, t: nat, id: TxnId, k: Key, m: Mode, drv: Drivers)
    requires SlotsOk(s) && Reserved(s, drv) && t < |s.threads| && s.threads[t].Idle? && drv(id) == t
    ensures Reserved(LockCheck(s, t, id, k, m), drv) == true
  {
    var s', i := LockCheck(s, t, id, k, m), FindTxn(s.txns, id);
    forall j | 0 <= j < |s.txns| && s.txns[j].active ensures |s.txns[j].locks| + Coming(s', drv, s.txns[j].id) <= MAX_LOCKS_PER_TXN {
      assert |s.txns[j].locks| + Coming(s, drv, s.txns[j].id) <= MAX_LOCKS_PER_TXN;
      if s.txns[j].id != id {
        assert Coming(s', drv, s.txns[j].id) <= Coming(s, drv, s.txns[j].id);
      } else if i < |s.txns| {
        assert j == i;
      } else {
        NotFound(s.txns, id, j);
      }
    }
  }

  lemma {:induction false} NotFound(txns: seq<Slot>, id: TxnId, j: nat)
    requires FindTxn(txns, id) == |txns| && j < |txns|
    ensures !(txns[j].active && txns[j].id == id)
    decreases |txns|
  {
    if j > 0 {
      NotFound(txns[1..], id, j - 1);
    }
  }

  lemma RegisterReserved(s: State, t: nat, drv: Drivers)
    requires SlotsOk(s) && Reserved(s, drv) && Driven(s, drv) && t < |s.threads| && s.threads[t].Acquired?
    ensures FindsRoom(s, Proceeds(t))
    ensures Reserved(LockRegister(s, t, s.threads[t].txn, s.threads[t].key), drv) == true
  {
    var id := s.threads[t].txn;
    var s', i := LockRegister(s, t, id, s.threads[t].key), FindTxn(s.txns, id);
    assert drv(id) == t && Past(s.threads[t], id);
    if i < |s.txns| {
      assert |s.txns[i].locks| + Coming(s, drv, id) <= MAX_LOCKS_PER_TXN;
      assert Coming(s', drv, id) == 0;
    }
    forall x ensures Coming(s', drv, x) <= Coming(s, drv, x) {}
    forall j | 0 <= j < |s'.txns| && j != i ensures s'.txns[j] == s.txns[j] {}
  }

  lemma FinishReserved(s: State, t: nat, id: TxnId, drv: Drivers)
    requires Reserved(s, drv) && t < |s.threads| && s.threads[t].Idle?
    ensures Reserved(Finish(s, t, id), drv) == true
  {
    var s', i := Finish(s, t, id), FindTxn(s.txns, id);
    forall x ensures Coming(s', drv, x) <= Coming(s, drv, x) {}
    forall j | 0 <= j < |s'.txns| && j != i ensures s'.txns[j] == s.txns[j] {}
  }

  lemma ProceedReserved(s: State, t: nat, drv: Drivers)
    requires Inv(s) && Reserved(s, drv) && Driven(s, drv) && CanMove(s, Proceeds(t))
    ensures FindsRoom(s, Proceeds(t)) && Reserved(Proceed(s, t), drv) == true
  {
    match s.threads[t]
    case Requesting(_, _, _) =>
      EnterShape(s, t);
      NobodyPast(s, Proceed(s, t), drv);
    case Woken(_, _, _, _) =>
      EnterShape(s, t);
      NobodyPast(s, Proceed(s, t), drv);
    case Acquired(_, _) => RegisterReserved(s, t, drv);
    case Orphan(k) => NobodyPast(s, Proceed(s, t), drv);
    case Releasing(rest) => NobodyPast(s, Proceed(s, t), drv);
  }

  /** Every section of every thread keeps the places reserved, as long as only its driver locks for a transaction. */
  lemma MoveReserved(s: State, m: Move, drv: Drivers)
    requires Inv(s) && Reserved(s, drv) && Driven(s, drv) && CanMove(s, m) && LocksOwn(m, drv)
    ensures FindsRoom(s, m) && Reserved(Moved(s, m), drv) == true
  {
    match m
    case Begins(t) => BeginReserved(s, t, drv);
    case Locks(t, id, k, mode) => CheckReserved(s, t, id, k, mode, drv);
    case Finishes(t, id) => FinishReserved(s, t, id, drv);
    case Wakes(t) => NobodyPast(s, Moved(s, m), drv);
    case Proceeds(t) => ProceedReserved(s, t, drv);
  }

  ghost predicate AllLockOwn(ms: seq<Move>, drv: Drivers) {
    forall i :: 0 <= i < |ms| ==> LocksOwn(ms[i], drv)
  }

  /** With one thread locking for each transaction, whoever ends it, every run stays within the arrays, and at the end every
      hold is accounted for. */
  lemma {:induction false} OneThreadEach(s: State, ms: seq<Move>, drv: Drivers)
    requires Inv(s) && Reserved(s, drv) && Driven(s, drv) && Runs(s, ms) && AllLockOwn(ms, drv)
    ensures AlwaysFits(s, ms) && AlwaysRoom(s, ms) && Inv(After(s, ms))
    decreases |ms|
  {
    ReservedFits(s, drv);
    if ms != [] {
      MoveInv(s, ms[0]);
      MoveReserved(s, ms[0], drv);
      StaysDriven(s, ms[0], drv);
      OneThreadEach(Moved(s, ms[0]), ms[1..], drv);
    }
  }

  lemma InitialReserved(n: nat, drv: Drivers)
    ensures Inv(Initial(n)) && Reserved(Initial(n), drv) && Driven(Initial(n), drv)
  {
    InitialInv(n);
  }

  // ---------------------------------------------------------------------------
  // Two threads, one transaction
  // ---------------------------------------------------------------------------

  /** Two threads, and transaction 1 with `n` locks, all records used so far having ids below `e`. */
  ghost predicate Sharing(s: State, n: nat, e: nat, a: Pc, b: Pc) {
    && Inv(s) && s.threads == [a, b]
    && s.txns[0].active && s.txns[0].id == 1 && |s.txns[0].locks| == n
    && (forall k :: k in s.txns[0].locks ==> k.id < e)
    && forall x :: x in s.entries ==> s.entries[x].key.id < e
  }

  function Rec(x: nat): Key {
    Key(0, x)
  }

  /** One more section in front of a run. */
  lemma Before(s: State, m: Move, ms: seq<Move>)
    requires |s.buckets| == LOCK_TABLE_SIZE && CanMove(s, m) && |Moved(s, m).buckets| == LOCK_TABLE_SIZE && Runs(Moved(s, m), ms)
    ensures Runs(s, [m] + ms) && After(s, [m] + ms) == After(Moved(s, m), ms)
  {
    TailAppend([m], ms);
    OneTail(m);
    AppendNothing(ms);
  }

  lemma Asks(s: State, n: nat, e: nat, t: nat, x: nat, a: Pc, b: Pc)
    requires Sharing(s, n, e, a, b) && n < MAX_LOCKS_PER_TXN && e <= x && t < 2 && s.threads[t].Idle?
    ensures var m := Locks(t, 1, Rec(x), Exclusive); var q := Requesting(1, Rec(x), Exclusive);
            CanMove(s, m) && Sharing(Moved(s, m), n, e, if t == 0 then q else a, if t == 0 then b else q) == true
  {
    MoveInv(s, Locks(t, 1, Rec(x), Exclusive));
  }

  lemma Gets(s: State, n: nat, e: nat, t: nat, x: nat, a: Pc, b: Pc)
    requires Sharing(s, n, e, a, b) && e <= x && t < 2 && s.threads[t] == Requesting(1, Rec(x), Exclusive)
    ensures var m := Proceeds(t); var q := Acquired(1, Rec(x));
            CanMove(s, m) && Sharing(Moved(s, m), n, x + 1, if t == 0 then q else a, if t == 0 then b else q) == true
  {
    MoveInv(s, Proceeds(t));
    FindEntry(s, Rec(x));
  }

  lemma Registers(s: State, n: nat, e: nat, t: nat, x: nat, a: Pc, b: Pc)
    requires Sharing(s, n, e, a, b) && x < e && t < 2 && s.threads[t] == Acquired(1, Rec(x))
    ensures var m := Proceeds(t);
            CanMove(s, m) && Sharing(Moved(s, m), n + 1, e, if t == 0 then Idle(Done) else a, if t == 0 then b else Idle(Done)) == true
  {
    MoveInv(s, Proceeds(t));
    assert FindTxn(s.txns, 1) == 0;
  }

  /** Both threads see 63 locks, and both register one more. */
  lemma BothRegister(s: State, a: Pc) returns (ms: seq<Move>)
    requires Sharing(s, 63, 63, a, Idle(Done)) && a.Idle?
    ensures Runs(s, ms) && |After(s, ms).txns| > 0 && |After(s, ms).txns[0].locks| == 65
  {
    var d := Idle(Done);
    var m1, m2 := Locks(0, 1, Rec(63), Exclusive), Locks(1, 1, Rec(64), Exclusive);
    var r1, r2, q1, q2 := Requesting(1, Rec(63), Exclusive), Requesting(1, Rec(64), Exclusive), Acquired(1, Rec(63)), Acquired(1, Rec(64));
    Asks(s, 63, 63, 0, 63, a, d);
    var s1 := Moved(s, m1);
    Asks(s1, 63, 63, 1, 64, r1, d);
    var s2 := Moved(s1, m2);
    Gets(s2, 63, 63, 0, 63, r1, r2);
    var s3 := Moved(s2, Proceeds(0));
    Gets(s3, 63, 64, 1, 64, q1, r2);
    var s4 := Moved(s3, Proceeds(1));
    Registers(s4, 63, 65, 0, 63, q1, q2);
    var s5 := Moved(s4, Proceeds(0));
    Registers(s5, 64, 65, 1, 64, d, q2);
    var s6 := Moved(s5, Proceeds(1));
    Before(s5, Proceeds(1), []);
    Before(s4, Proceeds(0), [Proceeds(1)] + []);
    ms := [Proceeds(0)] + ([Proceeds(1)] + []);
    Before(s3, Proceeds(1), ms);
    ms := [Proceeds(1)] + ms;
    Before(s2, Proceeds(0), ms);
    ms := [Proceeds(0)] + ms;
    Before(s1, m2, ms);
    ms := [m2] + ms;
    Before(s, m1, ms);
    ms := [m1] + ms;
  }

  /** Thread 0 locks one record after another. */
  lemma {:induction false} Fills(s: State, n: nat, a: Pc) returns (ms: seq<Move>)
    requires Sharing(s, n, n, a, Idle(Done)) && a.Idle? && n <= 63
    ensures Runs(s, ms) && |After(s, ms).txns| > 0 && |After(s, ms).txns[0].locks| == 65
    decreases 63 - n
  {
    if n == 63 {
      ms := BothRegister(s, a);
    } else {
      var d, m := Idle(Done), Locks(0, 1, Rec(n), Exclusive);
      Asks(s, n, n, 0, n, a, d);
      var s1 := Moved(s, m);
      Gets(s1, n, n, 0, n, Requesting(1, Rec(n), Exclusive), d);
      var s2 := Moved(s1, Proceeds(0));
      Registers(s2, n, n + 1, 0, n, Acquired(1, Rec(n)), d);
      var s3 := Moved(s2, Proceeds(0));
      ms := Fills(s3, n + 1, d);
      Before(s2, Proceeds(0), ms);
      ms := [Proceeds(0)] + ms;
      Before(s1, Proceeds(0), ms);
      ms := [Proceeds(0)] + ms;
      Before(s, m, ms);
      ms := [m] + ms;
    }
  }

  lemma {:induction false} FitsAtTheEnd(s: State, ms: seq<Move>)
    requires |s.buckets| == LOCK_TABLE_SIZE && Runs(s, ms) && AlwaysFits(s, ms)
    ensures Fits(After(s, ms))
    decreases |ms|
  {
    if ms != [] {
      FitsAtTheEnd(Moved(s, ms[0]), ms[1..]);
    }
  }

  /** Thread 0 has begun transaction 1. */
  lemma Opened() returns (s: State)
    ensures CanMove(Initial(2), Begins(0)) && s == Moved(Initial(2), Begins(0))
    ensures Sharing(s, 0, 0, Idle(Began(1)), Idle(Done))
  {
    InitialInv(2);
    MoveInv(Initial(2), Begins(0));
    s := Moved(Initial(2), Begins(0));
    assert FreeSlot(Initial(2).txns) == 0;
    assert s.threads == [Idle(Began(1)), Idle(Done)];
  }

  /** Two threads that lock for the same transaction can write a 65th lock into its array of 64. */
  lemma SharedOverflows() returns (ms: seq<Move>)
    ensures Runs(Initial(2), ms) && !Fits(After(Initial(2), ms)) && !AlwaysFits(Initial(2), ms)
  {
    var s := Opened();
    var rest := Fills(s, 0, Idle(Began(1)));
    Before(Initial(2), Begins(0), rest);
    ms := [Begins(0)] + rest;
    if AlwaysFits(Initial(2), ms) {
      FitsAtTheEnd(Initial(2), ms);
    }
  }
}
