// What each call of the lock and transaction managers answers, and what its answer says of slots and locks. Everything here
// is stated of slots, entries and holds, whatever way the code looks for them.
module LockReplies {
  import opened LockModel
  import opened LockSafety
  import opened LockOwners
  import opened Common

  /** Slot `i` holds the active transaction `id`. */
  predicate Active(txns: seq<Slot>, i: nat, id: TxnId) {
    i < |txns| && txns[i].active && txns[i].id == id
  }

  ghost predicate Open(s: State, id: TxnId) {
    exists i: nat :: Active(s.txns, i, id)
  }

  /** Transaction `id` is active and has `k` registered. */
  ghost predicate Registered(s: State, id: TxnId, k: Key) {
    exists i: nat :: Active(s.txns, i, id) && k in s.txns[i].locks
  }

  lemma {:induction false} FindTxnExactly(txns: seq<Slot>, id: TxnId)
    ensures FindTxn(txns, id) == |txns| <==> forall i: nat :: !Active(txns, i, id)
    ensures FindTxn(txns, id) < |txns| ==> Active(txns, FindTxn(txns, id), id)
    decreases |txns|
  {
    if txns != [] {
      var rest := txns[1..];
      FindTxnExactly(rest, id);
      if FindTxn(txns, id) == |txns| {
        forall i: nat ensures !Active(txns, i, id) {
          assert i > 0 ==> !Active(rest, i - 1, id);
        }
      } else if FindTxn(txns, id) > 0 {
        assert Active(rest, FindTxn(rest, id), id);
        assert Active(txns, FindTxn(txns, id), id);
      } else {
        assert Active(txns, 0, id);
      }
    }
  }

  /** There is one slot for an active transaction. */
  lemma FindIsSlot(s: State, i: nat, id: TxnId)
    requires SlotsOk(s) && Active(s.txns, i, id)
    ensures FindTxn(s.txns, id) == i
  {
    FindTxnExactly(s.txns, id);
  }

  // ---------------------------------------------------------------------------
  // txn_begin
  // ---------------------------------------------------------------------------

  lemma {:induction false} FreeSlotExactly(txns: seq<Slot>)
    ensures FreeSlot(txns) == |txns| <==> forall i :: 0 <= i < |txns| ==> txns[i].active
    decreases |txns|
  {
    if txns != [] {
      var rest := txns[1..];
      FreeSlotExactly(rest);
      assert forall i :: 0 < i < |txns| ==> txns[i] == rest[i - 1];
      if forall i :: 0 <= i < |txns| ==> txns[i].active {
        assert forall i :: 0 <= i < |rest| ==> rest[i] == txns[i + 1];
      }
    }
  }

  /** No slot has or had an id from the next one on. */
  ghost predicate IdsBelow(s: State) {
    forall i :: 0 <= i < |s.txns| ==> s.txns[i].id < s.nextTxn
  }

  /** txn_begin is refused if and only if all 128 slots are active. Otherwise the caller gets an id no slot has, active or
      not, one slot that was free becomes that transaction, with no locks, and no other slot changes. */
  lemma BeginExactly(s: State, t: nat)
    requires SlotsOk(s) && IdsBelow(s) && t < |s.threads|
    ensures |s.txns| == 128
    ensures var s', full := Begin(s, t), forall i :: 0 <= i < |s.txns| ==> s.txns[i].active;
            && (s'.threads[t] == Idle(Refused) <==> full)
            && (full ==> s' == s.(threads := s.threads[t := Idle(Refused)]))
            && (!full ==>
                  && s'.threads == s.threads[t := Idle(Began(s.nextTxn))] && s'.nextTxn == s.nextTxn + 1
                  && (forall i :: 0 <= i < |s.txns| ==> s.txns[i].id != s.nextTxn)
                  && s'.buckets == s.buckets && s'.entries == s.entries
                  && exists i :: NewTxnAt(s, s', i))
  {
    FreeSlotExactly(s.txns);
    if FreeSlot(s.txns) < |s.txns| {
      assert NewTxnAt(s, Begin(s, t), FreeSlot(s.txns));
    }
  }

  /** Slot `i` alone has changed: it was free and is the new transaction. */
  ghost predicate NewTxnAt(s: State, s': State, i: nat) {
    && i < |s.txns| == |s'.txns| && !s.txns[i].active && s'.txns[i] == Slot(s.nextTxn, true, [])
    && forall j :: 0 <= j < |s.txns| && j != i ==> s'.txns[j] == s.txns[j]
  }

  /** The sections behind the first do not give out ids. */
  lemma ProceedIds(s: State, t: nat)
    requires Inv(s) && IdsBelow(s) && CanMove(s, Proceeds(t))
    ensures IdsBelow(Proceed(s, t)) && Proceed(s, t).nextTxn == s.nextTxn
  {
    match s.threads[t]
    case Requesting(_, _, _) => EnterShape(s, t);
    case Woken(_, _, _, _) => EnterShape(s, t);
    case Acquired(id, k) =>
    case Orphan(k) => UnlockShape(s, k);
    case Releasing(rest) =>
      if rest != [] {
        UnlockShape(s, rest[0]);
      }
  }

  lemma MoveIds(s: State, m: Move)
    requires Inv(s) && IdsBelow(s) && CanMove(s, m)
    ensures IdsBelow(Moved(s, m)) && s.nextTxn <= Moved(s, m).nextTxn
  {
    if m.Proceeds? {
      ProceedIds(s, m.t);
    }
  }

  /** Along a run ids only grow: an id once given out is never given out again. */
  lemma {:induction false} IdsOnlyGrow(s: State, ms: seq<Move>)
    requires Inv(s) && IdsBelow(s) && Runs(s, ms)
    ensures Inv(After(s, ms)) && IdsBelow(After(s, ms)) && s.nextTxn <= After(s, ms).nextTxn
    decreases |ms|
  {
    if ms != [] {
      MoveInv(s, ms[0]);
      MoveIds(s, ms[0]);
      IdsOnlyGrow(Moved(s, ms[0]), ms[1..]);
    }
  }

  lemma InitialIds(n: nat)
    ensures IdsBelow(Initial(n))
  {
  }

  // ---------------------------------------------------------------------------
  // txn_lock
  // ---------------------------------------------------------------------------

  /** The first section of txn_lock answers Done if and only if the transaction has the record, and Refused if and only if the
      transaction is not active, or has 64 records and not this one. Otherwise it goes on to ask for the record. Nothing else
      changes. */
  lemma CheckExactly(s: State, t: nat, id: TxnId, k: Key, m: Mode)
    requires SlotsOk(s) && t < |s.threads|
    ensures var s' := LockCheck(s, t, id, k, m); var full := exists i: nat :: Active(s.txns, i, id) && |s.txns[i].locks| >= 64;
            && s' == s.(threads := s.threads[t := s'.threads[t]])
            && (s'.threads[t] == Idle(Done) <==> Registered(s, id, k))
            && (s'.threads[t] == Idle(Refused) <==> !Open(s, id) || (full && !Registered(s, id, k)))
            && (s'.threads[t].Idle? || s'.threads[t] == Requesting(id, k, m))
  {
    FindTxnExactly(s.txns, id);
    forall i: nat | Active(s.txns, i, id) ensures FindTxn(s.txns, id) == i {
      FindIsSlot(s, i, id);
    }
    var f := FindTxn(s.txns, id);
    assert f < |s.txns| ==> Active(s.txns, f, id);
  }

  /** What an entry says of its record. */
  lemma EntrySays(s: State, a: Addr)
    requires Inv(s) && a in s.entries
    ensures Owed(s, s.entries[a].key) == HeldBy(s.entries[a])
    ensures ExclusivelyHeld(s, s.entries[a].key) <==> s.entries[a].exclusive
  {
  }

  lemma NoEntrySays(s: State, k: Key)
    requires Inv(s) && !HasEntry(s, k)
    ensures Owed(s, k) == 0 && !ExclusivelyHeld(s, k)
  {
  }

  /** Whether a request can be granted now. */
  ghost predicate Grantable(s: State, k: Key, m: Mode) {
    if m == Shared then !ExclusivelyHeld(s, k) else Owed(s, k) == 0
  }

  /** What entry `a` is like after lock_mgr_lock has looked at it. */
  lemma GrantSays(s: State, t: nat, id: TxnId, k: Key, m: Mode, a: Addr)
    requires t < |s.threads| && a in s.entries
    ensures var s' := TryGrant(s, t, id, k, m, a); var e, e' := s.entries[a], TryGrant(s, t, id, k, m, a).entries[a];
            && a in s'.entries && e'.key == e.key && s'.txns == s.txns
            && (forall b :: b in s'.entries <==> b in s.entries) && (forall b :: b in s.entries && b != a ==> s'.entries[b] == s.entries[b])
            && (s'.threads[t].Acquired? <==> !e.exclusive && (m == Exclusive ==> e.shared == 0))
            && (s'.threads[t].Acquired? ==> (
                  s'.threads[t] == Acquired(id, k) && e'.shared == e.shared + (if m == Shared then 1 else 0) && e'.exclusive == (m == Exclusive)))
            && (!s'.threads[t].Acquired? ==> s'.threads[t] == Asleep(id, k, m, a) && e'.shared == e.shared && e'.exclusive == e.exclusive)
  {
  }

  /** The entry of a record after a section of lock_mgr_lock, and what it was before, or would have been. */
  ghost predicate Entered(s: State, s': State, t: nat, k: Key, m: Mode, a: Addr) {
    && t < |s'.threads| && a in s'.entries && s'.entries[a].key == k && (a in s.entries ==> s.entries[a].key == k)
    && (s'.threads[t].Acquired? <==> Grantable(s, k, m))
    && (s'.threads[t].Acquired? ==> s'.entries[a].exclusive == (m == Exclusive))
    && (!s'.threads[t].Acquired? ==> (
          s'.threads[t].Asleep? && s'.threads[t].key == k && s'.threads[t].mode == m && s'.entries[a].exclusive == ExclusivelyHeld(s, k)))
    && (forall b :: b in s'.entries && b != a ==> b in s.entries && s'.entries[b].exclusive == s.entries[b].exclusive && s'.entries[b].key == s.entries[b].key)
    && (forall b :: b in s.entries && b != a ==> b in s'.entries)
  }

  lemma FirstEnter(s: State, t: nat, id: TxnId, k: Key, m: Mode) returns (a: Addr)
    requires Inv(s) && t < |s.threads| && s.threads[t] == Requesting(id, k, m)
    ensures Entered(s, LockEnter(s, t, id, k, m), t, k, m, a)
  {
    FindEntry(s, k);
    match Find(s.buckets[Hash(k)], s.entries, k)
    case Some(b) =>
      a := b;
      EntrySays(s, a);
      GrantSays(s, t, id, k, m, a);
    case None =>
      a := s.nextAddr;
      NoEntrySays(s, k);
      NewEntryTable(s, k);
      GrantSays(WithNewEntry(s, k), t, id, k, m, a);
  }

  lemma ResumedFrom(s: State, t: nat, id: TxnId, k: Key, m: Mode, a: Addr)
    requires t < |s.threads| && a in s.entries && s.entries[a].waiters > 0 && s.entries[a].key == k
    requires Owed(s, k) == HeldBy(s.entries[a]) && (ExclusivelyHeld(s, k) <==> s.entries[a].exclusive)
    ensures Entered(s, LockResume(s, t, id, k, m, a), t, k, m, a) == true
  {
    GrantSays(s.(entries := s.entries[a := s.entries[a].(waiters := s.entries[a].waiters - 1)]), t, id, k, m, a);
  }

  lemma EnterAgain(s: State, t: nat, id: TxnId, k: Key, m: Mode, a: Addr)
    requires Inv(s) && t < |s.threads| && s.threads[t] == Woken(id, k, m, a)
    ensures a in s.entries && s.entries[a].waiters > 0
    ensures Entered(s, LockResume(s, t, id, k, m, a), t, k, m, a) == true
  {
    SomebodyWaits(s.threads, t, a);
    EntrySays(s, a);
    ResumedFrom(s, t, id, k, m, a);
  }

  lemma EnteredExclusive(s: State, s': State, t: nat, k: Key, m: Mode, a: Addr)
    requires Inv(s) && Inv(s') && Entered(s, s', t, k, m, a)
    ensures s'.threads[t].Acquired? ==> (ExclusivelyHeld(s', k) <==> m == Exclusive)
    ensures !s'.threads[t].Acquired? ==> (ExclusivelyHeld(s', k) <==> ExclusivelyHeld(s, k))
    ensures forall q :: q != k ==> (ExclusivelyHeld(s', q) <==> ExclusivelyHeld(s, q))
  {
    EntrySays(s', a);
    forall q | q != k ensures ExclusivelyHeld(s', q) <==> ExclusivelyHeld(s, q) {
      if ExclusivelyHeld(s', q) {
        var b :| b in s'.entries && s'.entries[b].key == q && s'.entries[b].exclusive;
        assert b in s.entries && s.entries[b].exclusive && s.entries[b].key == q;
      }
      if ExclusivelyHeld(s, q) {
        var b :| b in s.entries && s.entries[b].key == q && s.entries[b].exclusive;
        assert b in s'.entries && s'.entries[b].key == q && s'.entries[b].exclusive;
      }
    }
  }

  /** Holds after a section that moves thread `t` to `pc`. */
  lemma HoldsAfter(s: State, s': State, t: nat)
    requires t < |s.threads| == |s'.threads| && s'.threads == s.threads[t := s'.threads[t]] && s'.txns == s.txns
    requires s.threads[t].Requesting? || s.threads[t].Woken?
    ensures forall q :: Owed(s', q) == Owed(s, q) + PcOwes(s'.threads[t], q)
  {
    forall q ensures Owed(s', q) == Owed(s, q) + PcOwes(s'.threads[t], q) {
      GrantOwed(s, t, s'.threads[t], q, s');
    }
  }

  /** An attempt at a record, the first or one after waking, takes it if and only if it can be granted, and otherwise sleeps on
      it. There is just this hold more, or none. */
  lemma EnterExactly(s: State, t: nat)
    requires Inv(s) && CanMove(s, Proceeds(t)) && (s.threads[t].Requesting? || s.threads[t].Woken?)
    ensures var th, s' := s.threads[t], Proceed(s, t);
            && s'.threads == s.threads[t := s'.threads[t]] && s'.txns == s.txns
            && (s'.threads[t] == Acquired(th.txn, th.key) <==> Grantable(s, th.key, th.mode))
            && (!Grantable(s, th.key, th.mode) ==> s'.threads[t].Asleep? && s'.threads[t].txn == th.txn && s'.threads[t].key == th.key)
            && Owed(s', th.key) == Owed(s, th.key) + (if Grantable(s, th.key, th.mode) then 1 else 0)
            && (ExclusivelyHeld(s', th.key) <==> if Grantable(s, th.key, th.mode) then th.mode == Exclusive else ExclusivelyHeld(s, th.key))
            && forall q :: q != th.key ==> Owed(s', q) == Owed(s, q) && (ExclusivelyHeld(s', q) <==> ExclusivelyHeld(s, q))
  {
    var s' := Proceed(s, t);
    EnterShape(s, t);
    EnterEntry(s, t);
    HoldsAfter(s, s', t);
  }

  lemma EnterEntry(s: State, t: nat)
    requires Inv(s) && CanMove(s, Proceeds(t)) && (s.threads[t].Requesting? || s.threads[t].Woken?)
    ensures var th, s' := s.threads[t], Proceed(s, t);
            && t < |s'.threads| && (s'.threads[t].Acquired? <==> Grantable(s, th.key, th.mode))
            && (!s'.threads[t].Acquired? ==> s'.threads[t].Asleep? && s'.threads[t].key == th.key)
            && (ExclusivelyHeld(s', th.key) <==> if s'.threads[t].Acquired? then th.mode == Exclusive else ExclusivelyHeld(s, th.key))
            && forall q :: q != th.key ==> (ExclusivelyHeld(s', q) <==> ExclusivelyHeld(s, q))
  {
    var th, s' := s.threads[t], Proceed(s, t);
    MoveInv(s, Proceeds(t));
    var a: Addr;
    if th.Requesting? {
      a := FirstEnter(s, t, th.txn, th.key, th.mode);
    } else {
      a := th.entry;
      EnterAgain(s, t, th.txn, th.key, th.mode, a);
    }
    EnteredExclusive(s, s', t, th.key, th.mode, a);
  }

  /** The last section of txn_lock answers Done if and only if the transaction is still active, and then has just this record
      more. Otherwise the hold is an orphan, and no slot changes. */
  lemma RegisterExactly(s: State, t: nat)
    requires TableOk(s) && SlotsOk(s) && t < |s.threads| && s.threads[t].Acquired?
    ensures var th, s' := s.threads[t], Proceed(s, t);
            && s'.threads == s.threads[t := if Open(s, th.txn) then Idle(Done) else Orphan(th.key)]
            && s'.entries == s.entries && s'.buckets == s.buckets
            && (!Open(s, th.txn) ==> s'.txns == s.txns)
            && (Open(s, th.txn) ==> Registered(s', th.txn, th.key))
            && forall i: nat :: i < |s.txns| ==>
                 i < |s'.txns| && s'.txns[i] == if Active(s.txns, i, th.txn) then s.txns[i].(locks := s.txns[i].locks + [th.key]) else s.txns[i]
  {
    var th, s' := s.threads[t], Proceed(s, t);
    FindTxnExactly(s.txns, th.txn);
    forall i: nat | Active(s.txns, i, th.txn) ensures FindTxn(s.txns, th.txn) == i {
      FindIsSlot(s, i, th.txn);
    }
    if FindTxn(s.txns, th.txn) < |s.txns| {
      assert Active(s'.txns, FindTxn(s.txns, th.txn), th.txn);
    }
  }

  // ---------------------------------------------------------------------------
  // txn_commit, txn_abort and the releases
  // ---------------------------------------------------------------------------

  /** txn_commit and txn_abort are refused if and only if the transaction is not active. Otherwise its slot, and no other, is
      given up, and the caller goes on to give back just the records it had. */
  lemma FinishExactly(s: State, t: nat, id: TxnId)
    requires SlotsOk(s) && t < |s.threads|
    ensures var s' := Finish(s, t, id);
            && (s'.threads[t] == Idle(Refused) <==> !Open(s, id))
            && s' == s.(threads := s.threads[t := s'.threads[t]], txns := s'.txns)
            && (forall i: nat :: i < |s.txns| ==>
                  i < |s'.txns| && s'.txns[i] == if Active(s.txns, i, id) then s.txns[i].(active := false, locks := []) else s.txns[i])
            && forall i: nat :: Active(s.txns, i, id) ==> s'.threads[t] == Releasing(s.txns[i].locks)
  {
    FindTxnExactly(s.txns, id);
    forall i: nat | Active(s.txns, i, id) ensures FindTxn(s.txns, id) == i {
      FindIsSlot(s, i, id);
    }
  }

  /** Giving back a record takes one hold of it away, wakes all who sleep on it, and leaves all other holds and threads. */
  lemma GiveBackExactly(s: State, t: nat, k: Key, pc: Pc)
    requires Inv(s) && GivesBack(s, t, k, pc)
    ensures var s' := Go(Unlock(s, k).0, t, pc);
            && s'.txns == s.txns && Owed(s', k) == Owed(s, k) - 1 && !ExclusivelyHeld(s', k)
            && |s'.threads| == |s.threads| && s'.threads[t] == pc
            && (forall u :: 0 <= u < |s.threads| && u != t ==> s'.threads[u] == Roused(s.threads[u], k))
            && forall q :: q != k ==> Owed(s', q) == Owed(s, q) && (ExclusivelyHeld(s', q) <==> ExclusivelyHeld(s, q))
  {
    ReleaseFinds(s, t, k, pc);
    var a, s' := Find(s.buckets[Hash(k)], s.entries, k).value, Go(Unlock(s, k).0, t, pc);
    UnlockIs(s, t, k, pc, a);
    ReleaseOwed(s, t, k, pc, a, s');
    SleepersAwake(s, s', t, k, pc, a);
    OthersExclusive(s, s', k, a);
  }

  lemma UnlockIs(s: State, t: nat, k: Key, pc: Pc, a: Addr)
    requires |s.buckets| == LOCK_TABLE_SIZE && t < |s.threads| && Find(s.buckets[Hash(k)], s.entries, k) == Some(a)
    requires a in s.entries && HeldBy(s.entries[a]) > 0
    ensures var s' := Go(Unlock(s, k).0, t, pc);
            && s'.threads == Broadcast(s.threads, a)[t := pc] && s'.txns == s.txns
            && (s'.entries == s.entries[a := Released(s.entries[a])] || s'.entries == s.entries - {a})
  {
  }

  /** Where thread `th` stands when a hold on `k` has been given back: a sleeper on that record wakes with the request it has. */
  ghost function Roused(th: Pc, k: Key): Pc {
    if th.Asleep? && th.key == k then Woken(th.txn, k, th.mode, th.entry) else th
  }

  lemma SleepersAwake(s: State, s': State, t: nat, k: Key, pc: Pc, a: Addr)
    requires WaitersOk(s) && UniqueKeys(s.entries) && t < |s.threads| && a in s.entries && s.entries[a].key == k
    requires s'.threads == Broadcast(s.threads, a)[t := pc]
    ensures |s'.threads| == |s.threads| && s'.threads[t] == pc
    ensures forall u :: 0 <= u < |s.threads| && u != t ==> s'.threads[u] == Roused(s.threads[u], k)
  {
  }

  lemma OthersExclusive(s: State, s': State, k: Key, a: Addr)
    requires UniqueKeys(s.entries) && a in s.entries && s.entries[a].key == k
    requires HeldBy(s.entries[a]) > 0 && !(s.entries[a].exclusive && s.entries[a].shared > 0)
    requires s'.entries == s.entries[a := Released(s.entries[a])] || s'.entries == s.entries - {a}
    ensures !ExclusivelyHeld(s', k)
    ensures forall q :: q != k ==> (ExclusivelyHeld(s', q) <==> ExclusivelyHeld(s, q))
  {
    forall q | q != k ensures ExclusivelyHeld(s', q) <==> ExclusivelyHeld(s, q) {
      if ExclusivelyHeld(s, q) {
        var b :| b in s.entries && s.entries[b].key == q && s.entries[b].exclusive;
        assert b in s'.entries && s'.entries[b].key == q && s'.entries[b].exclusive;
      }
      if ExclusivelyHeld(s', q) {
        var b :| b in s'.entries && s'.entries[b].key == q && s'.entries[b].exclusive;
        assert b in s.entries && s.entries[b].key == q && s.entries[b].exclusive;
      }
    }
  }

  /** An orphaned lock is given back, and txn_lock answers Refused; the commit or abort answers Done when every record of the
      copied list has been given back, and not before. */
  lemma ReleaseExactly(s: State, t: nat)
    requires Inv(s) && t < |s.threads| && (s.threads[t].Orphan? || s.threads[t].Releasing?)
    ensures var th, s' := s.threads[t], Proceed(s, t);
            && s'.txns == s.txns && t < |s'.threads|
            && (th.Orphan? ==> s'.threads[t] == Idle(Refused) && Owed(s', th.key) == Owed(s, th.key) - 1)
            && (th.Releasing? && th.rest != [] ==>
                  s'.threads[t] == Releasing(th.rest[1..]) && Owed(s', th.rest[0]) == Owed(s, th.rest[0]) - 1)
            && (th.Releasing? && th.rest == [] ==> s' == s.(threads := s.threads[t := Idle(Done)]))
  {
    match s.threads[t]
    case Orphan(k) => GiveBackExactly(s, t, k, Idle(Refused));
    case Releasing(rest) =>
      if rest != [] {
        GiveBackExactly(s, t, rest[0], Releasing(rest[1..]));
      }
    case _ =>
  }

  // ---------------------------------------------------------------------------
  // Two-phase locking
  // ---------------------------------------------------------------------------

  /** A record that is registered stays so, and is held, until its transaction is finished. */
  lemma StaysRegistered(s: State, m: Move, id: TxnId, k: Key)
    requires Inv(s) && IdsBelow(s) && CanMove(s, m) && Registered(s, id, k) && !(m.Finishes? && m.txn == id)
    ensures Registered(Moved(s, m), id, k)
  {
    var i: nat :| Active(s.txns, i, id) && k in s.txns[i].locks;
    var s' := Moved(s, m);
    match m {
      case Begins(t) =>
        assert Active(s'.txns, i, id) && k in s'.txns[i].locks;
      case Locks(_, _, _, _) => assert Active(s'.txns, i, id) && k in s'.txns[i].locks;
      case Finishes(t, other) =>
        FinishExactly(s, t, other);
        assert Active(s'.txns, i, id) && k in s'.txns[i].locks;
      case Wakes(_) => assert Active(s'.txns, i, id) && k in s'.txns[i].locks;
      case Proceeds(t) =>
        SlotsAfter(s, t, i);
        assert Active(s'.txns, i, id) && k in s'.txns[i].locks;
    }
  }

  lemma SlotsAfter(s: State, t: nat, i: nat)
    requires Inv(s) && CanMove(s, Proceeds(t)) && i < |s.txns|
    ensures var s' := Proceed(s, t);
            i < |s'.txns| && s'.txns[i].active == s.txns[i].active && s'.txns[i].id == s.txns[i].id && s.txns[i].locks <= s'.txns[i].locks
  {
    match s.threads[t]
    case Requesting(_, _, _) => EnterShape(s, t);
    case Woken(_, _, _, _) => EnterShape(s, t);
    case Acquired(id, k) => RegisterExactly(s, t);
    case Orphan(_) => ReleaseExactly(s, t);
    case Releasing(_) => ReleaseExactly(s, t);
  }

  lemma RegisteredIsHeld(s: State, id: TxnId, k: Key)
    requires Inv(s) && Registered(s, id, k)
    ensures Owed(s, k) > 0 && HasEntry(s, k)
  {
    var i: nat :| Active(s.txns, i, id) && k in s.txns[i].locks;
    SlotOwes(s.txns, i, k);
    CountIn(s.txns[i].locks, k);
  }

  /** Strict two-phase locking: from the moment txn_lock has answered Done until the transaction is finished, the record is
      registered with it and held, whatever anybody does. */
  lemma {:induction false} HeldToTheEnd(s: State, ms: seq<Move>, id: TxnId, k: Key)
    requires Inv(s) && IdsBelow(s) && Runs(s, ms) && Registered(s, id, k)
    requires forall j :: 0 <= j < |ms| ==> !(ms[j].Finishes? && ms[j].txn == id)
    ensures Registered(After(s, ms), id, k) && Owed(After(s, ms), k) > 0
    decreases |ms|
  {
    if ms == [] {
      RegisteredIsHeld(s, id, k);
    } else {
      MoveInv(s, ms[0]);
      MoveIds(s, ms[0]);
      StaysRegistered(s, ms[0], id, k);
      HeldToTheEnd(Moved(s, ms[0]), ms[1..], id, k);
    }
  }
}
