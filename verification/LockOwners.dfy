// Seen from outside, the two managers are a map from records to owners: with exclusive requests only, and each transaction
// driven by one thread, every section is invisible, or takes one free record, or gives one of the thread's records back.
// This is why the booking engine may be modelled with an atomic lock step.
module LockOwners {
  import opened LockModel
  import opened LockSafety
  import opened Common

  // ---------------------------------------------------------------------------
  // Runs
  // ---------------------------------------------------------------------------

  ghost predicate Runs(s: State, ms: seq<Move>)
    requires |s.buckets| == LOCK_TABLE_SIZE
    decreases |ms|
  {
    ms != [] ==> CanMove(s, ms[0]) && |Moved(s, ms[0]).buckets| == LOCK_TABLE_SIZE && Runs(Moved(s, ms[0]), ms[1..])
  }

  ghost function After(s: State, ms: seq<Move>): State
    requires |s.buckets| == LOCK_TABLE_SIZE && Runs(s, ms)
    decreases |ms|
  {
    if ms == [] then s else After(Moved(s, ms[0]), ms[1..])
  }

  /** Whatever threads do in whatever order, also ending each other's transactions: every hold in the lock table is accounted
      for, and when all transactions have ended and all threads are idle, no lock is left. */
  lemma {:induction false} RunsLeakNothing(s: State, ms: seq<Move>)
    requires Inv(s) && Runs(s, ms)
    ensures Inv(After(s, ms))
    ensures var s' := After(s, ms);
            (forall t :: 0 <= t < |s'.threads| ==> s'.threads[t].Idle?) && (forall i :: 0 <= i < |s'.txns| ==> !s'.txns[i].active)
            ==> s'.entries == map[]
    decreases |ms|
  {
    if ms == [] {
      if (forall t :: 0 <= t < |s.threads| ==> s.threads[t].Idle?) && (forall i :: 0 <= i < |s.txns| ==> !s.txns[i].active) {
        NothingLeaks(s);
      }
    } else {
      MoveInv(s, ms[0]);
      RunsLeakNothing(Moved(s, ms[0]), ms[1..]);
    }
  }

  // ---------------------------------------------------------------------------
  // Owners
  // ---------------------------------------------------------------------------

  /** Which thread drives a transaction. */
  type Drivers = TxnId -> nat

  /** A thread is busy only for transactions it drives. */
  ghost predicate Driven(s: State, drv: Drivers) {
    forall t :: 0 <= t < |s.threads| ==>
      (s.threads[t].Requesting? || s.threads[t].Asleep? || s.threads[t].Woken? || s.threads[t].Acquired? ==> drv(s.threads[t].txn) == t)
  }

  /** Nobody locks for a transaction that another thread drives. */
  ghost predicate LocksOwn(m: Move, drv: Drivers) {
    m.Locks? ==> drv(m.txn) == m.t
  }

  ghost predicate DrivenMove(s: State, m: Move, drv: Drivers) {
    match m
    case Begins(t) => drv(s.nextTxn) == t
    case Locks(t, txn, _, mode) => drv(txn) == t && mode == Exclusive
    case Finishes(t, txn) => drv(txn) == t
    case _ => true
  }

  ghost predicate SlotOwns(s: State, drv: Drivers, i: nat, u: nat, k: Key)
    requires i < |s.txns|
  {
    drv(s.txns[i].id) == u && k in s.txns[i].locks
  }

  /** Thread `u` has record `k`: on its way in or out, or registered with a transaction it drives. */
  ghost predicate Owns(s: State, drv: Drivers, u: nat, k: Key) {
    (u < |s.threads| && PcOwes(s.threads[u], k) > 0) || exists i :: 0 <= i < |s.txns| && SlotOwns(s, drv, i, u, k)
  }

  lemma OwnsOwed(s: State, drv: Drivers, u: nat, k: Key)
    requires Owns(s, drv, u, k)
    ensures Owed(s, k) > 0
  {
    if u < |s.threads| && PcOwes(s.threads[u], k) > 0 {
      ThreadOwes(s.threads, u, k);
    } else {
      var i :| 0 <= i < |s.txns| && SlotOwns(s, drv, i, u, k);
      SlotOwes(s.txns, i, k);
      CountIn(s.txns[i].locks, k);
    }
  }

  /** A record never has two owners. */
  lemma OneOwnerOnly(s: State, drv: Drivers, u: nat, v: nat, k: Key)
    requires Inv(s) && AllExclusive(s) && Owns(s, drv, u, k) && Owns(s, drv, v, k)
    ensures u == v
  {
    OwnsOwed(s, drv, u, k);
    OneOwner(s, k);
    ExclusiveIsAlone(s, k);
  }

  // ---------------------------------------------------------------------------
  // What a section does to owners
  // ---------------------------------------------------------------------------

  datatype Effect = Stutter | Takes(t: nat, key: Key) | Frees(t: nat, key: Key)

  ghost function EffectOf(s: State, m: Move): Effect
    requires CanMove(s, m) && |s.buckets| == LOCK_TABLE_SIZE
  {
    if !m.Proceeds? then Stutter else
      match s.threads[m.t]
      case Requesting(_, k, _) => if |Moved(s, m).threads| > m.t && Moved(s, m).threads[m.t].Acquired? then Takes(m.t, k) else Stutter
      case Woken(_, k, _, _) => if |Moved(s, m).threads| > m.t && Moved(s, m).threads[m.t].Acquired? then Takes(m.t, k) else Stutter
      case Orphan(k) => Frees(m.t, k)
      case Releasing(rest) => if rest == [] then Stutter else Frees(m.t, rest[0])
      case _ => Stutter
  }

  /** The owners after a section, from those before. */
  ghost predicate OwnersStep(s: State, e: Effect, s': State, drv: Drivers) {
    match e
    case Stutter => forall u, k :: Owns(s', drv, u, k) == Owns(s, drv, u, k)
    case Takes(t, key) => forall u, k :: Owns(s', drv, u, k) == (Owns(s, drv, u, k) || (u == t && k == key))
    case Frees(t, key) => forall u, k :: Owns(s', drv, u, k) == (Owns(s, drv, u, k) && k != key)
  }

  /** One thread's holds on its way in or out change, the slots do not. */
  lemma PcStep(s: State, s': State, drv: Drivers, t: nat, u: nat, k: Key)
    requires |s'.threads| == |s.threads| && t < |s.threads| && s'.txns == s.txns
    requires forall v :: 0 <= v < |s.threads| && v != t ==> PcOwes(s'.threads[v], k) == PcOwes(s.threads[v], k)
    ensures u != t || PcOwes(s'.threads[t], k) == PcOwes(s.threads[t], k) ==> Owns(s', drv, u, k) == Owns(s, drv, u, k)
    ensures PcOwes(s'.threads[t], k) > 0 ==> Owns(s', drv, t, k)
    ensures PcOwes(s'.threads[t], k) == 0 ==> Owns(s', drv, t, k) == SlotsOwn(s, drv, t, k)
    ensures PcOwes(s.threads[t], k) == 0 ==> Owns(s, drv, t, k) == SlotsOwn(s, drv, t, k)
  {
    forall i | 0 <= i < |s.txns| ensures SlotOwns(s', drv, i, u, k) == SlotOwns(s, drv, i, u, k) && SlotOwns(s', drv, i, t, k) == SlotOwns(s, drv, i, t, k) {}
  }

  ghost predicate SlotsOwn(s: State, drv: Drivers, u: nat, k: Key) {
    exists i :: 0 <= i < |s.txns| && SlotOwns(s, drv, i, u, k)
  }

  /** A section that leaves slots alone and owes what it owed. */
  lemma PcStutter(s: State, s': State, drv: Drivers, t: nat)
    requires t < |s.threads| && |s'.threads| == |s.threads| && s'.txns == s.txns
    requires forall v, k :: 0 <= v < |s.threads| ==> PcOwes(s'.threads[v], k) == PcOwes(s.threads[v], k)
    ensures OwnersStep(s, Stutter, s', drv)
  {
    forall u, k ensures Owns(s', drv, u, k) == Owns(s, drv, u, k) {
      PcStep(s, s', drv, t, u, k);
    }
  }

  /** A section that changes slot `i`, which thread `t` drives or nobody uses, and thread `t`. */
  lemma SlotStutter(s: State, s': State, drv: Drivers, t: nat, i: nat)
    requires t < |s.threads| == |s'.threads| && s'.threads == s.threads[t := s'.threads[t]]
    requires i < |s.txns| == |s'.txns| && s'.txns == s.txns[i := s'.txns[i]]
    requires s.txns[i].locks != [] ==> drv(s.txns[i].id) == t
    requires s'.txns[i].locks != [] ==> drv(s'.txns[i].id) == t
    requires forall k :: PcOwes(s'.threads[t], k) > 0 || k in s'.txns[i].locks <==> PcOwes(s.threads[t], k) > 0 || k in s.txns[i].locks
    ensures OwnersStep(s, Stutter, s', drv)
  {
    forall u, k ensures Owns(s', drv, u, k) == Owns(s, drv, u, k) {
      if Owns(s, drv, u, k) {
        SlotChange(s, s', drv, t, i, u, k);
      }
      if Owns(s', drv, u, k) {
        SlotChange(s', s, drv, t, i, u, k);
      }
    }
  }

  lemma SlotChange(s: State, s': State, drv: Drivers, t: nat, i: nat, u: nat, k: Key)
    requires t < |s.threads| == |s'.threads| && i < |s.txns| == |s'.txns|
    requires forall v :: 0 <= v < |s.threads| && v != t ==> s'.threads[v] == s.threads[v]
    requires forall j :: 0 <= j < |s.txns| && j != i ==> s'.txns[j] == s.txns[j]
    requires s.txns[i].locks != [] ==> drv(s.txns[i].id) == t
    requires s'.txns[i].locks != [] ==> drv(s'.txns[i].id) == t
    requires PcOwes(s.threads[t], k) > 0 || k in s.txns[i].locks ==> PcOwes(s'.threads[t], k) > 0 || k in s'.txns[i].locks
    requires Owns(s, drv, u, k)
    ensures Owns(s', drv, u, k)
  {
    if u < |s.threads| && PcOwes(s.threads[u], k) > 0 {
      if u == t && PcOwes(s'.threads[t], k) == 0 {
        assert SlotOwns(s', drv, i, t, k);
      }
    } else {
      var j :| 0 <= j < |s.txns| && SlotOwns(s, drv, j, u, k);
      if j != i {
        assert SlotOwns(s', drv, j, u, k);
      } else if PcOwes(s'.threads[t], k) == 0 {
        assert SlotOwns(s', drv, i, t, k);
      }
    }
  }

  lemma BeginOwners(s: State, t: nat, drv: Drivers)
    requires Inv(s) && t < |s.threads| && s.threads[t].Idle? && drv(s.nextTxn) == t
    ensures OwnersStep(s, Stutter, Begin(s, t), drv) == true
  {
    var s', i := Begin(s, t), FreeSlot(s.txns);
    if i == |s.txns| {
      PcStutter(s, s', drv, t);
    } else {
      SlotStutter(s, s', drv, t, i);
    }
  }

  lemma RegisterOwners(s: State, t: nat, drv: Drivers)
    requires Inv(s) && t < |s.threads| && s.threads[t].Acquired? && Driven(s, drv)
    ensures OwnersStep(s, Stutter, LockRegister(s, t, s.threads[t].txn, s.threads[t].key), drv) == true
  {
    var id, key := s.threads[t].txn, s.threads[t].key;
    var s', i := LockRegister(s, t, id, key), FindTxn(s.txns, id);
    if i == |s.txns| {
      PcStutter(s, s', drv, t);
    } else {
      SlotStutter(s, s', drv, t, i);
    }
  }

  lemma FinishOwners(s: State, t: nat, id: TxnId, drv: Drivers)
    requires Inv(s) && t < |s.threads| && s.threads[t].Idle? && drv(id) == t
    ensures OwnersStep(s, Stutter, Finish(s, t, id), drv) == true
  {
    var s', i := Finish(s, t, id), FindTxn(s.txns, id);
    if i == |s.txns| {
      PcStutter(s, s', drv, t);
    } else {
      forall k ensures PcOwes(s'.threads[t], k) > 0 <==> k in s.txns[i].locks {
        CountIn(s.txns[i].locks, k);
      }
      SlotStutter(s, s', drv, t, i);
    }
  }

  /** What TryGrant does to threads and slots. */
  lemma EnterShape(s: State, t: nat)
    requires Inv(s) && CanMove(s, Proceeds(t)) && (s.threads[t].Requesting? || s.threads[t].Woken?)
    ensures var s', th := Proceed(s, t), s.threads[t];
            && |s'.threads| == |s.threads| && s'.threads == s.threads[t := s'.threads[t]] && s'.txns == s.txns
            && (s'.threads[t] == Acquired(th.txn, th.key) || (s'.threads[t].Asleep? && s'.threads[t].txn == th.txn))
  {
    var th := s.threads[t];
    if th.Requesting? {
      FindEntry(s, th.key);
    } else {
      SomebodyWaits(s.threads, t, th.entry);
    }
  }

  lemma EnterOwners(s: State, t: nat, drv: Drivers)
    requires Inv(s) && AllExclusive(s) && CanMove(s, Proceeds(t)) && (s.threads[t].Requesting? || s.threads[t].Woken?)
    ensures OwnersStep(s, EffectOf(s, Proceeds(t)), Proceed(s, t), drv) == true
    ensures EffectOf(s, Proceeds(t)).Takes? ==> forall u :: !Owns(s, drv, u, s.threads[t].key)
  {
    var s', key := Proceed(s, t), s.threads[t].key;
    EnterShape(s, t);
    if s'.threads[t].Acquired? {
      GrantsFree(s, Proceeds(t), key);
      forall u ensures !Owns(s, drv, u, key) {
        if Owns(s, drv, u, key) {
          OwnsOwed(s, drv, u, key);
        }
      }
      forall u, k ensures Owns(s', drv, u, k) == (Owns(s, drv, u, k) || (u == t && k == key)) {
        PcStep(s, s', drv, t, u, k);
      }
    } else {
      PcStutter(s, s', drv, t);
    }
  }

  lemma UnlockShape(s: State, k: Key)
    requires |s.buckets| == LOCK_TABLE_SIZE
    ensures var s' := Unlock(s, k).0;
            && s'.txns == s.txns && |s'.threads| == |s.threads|
            && forall v, q :: 0 <= v < |s.threads| ==> PcOwes(s'.threads[v], q) == PcOwes(s.threads[v], q)
  {
  }

  lemma ReleaseOwners(s: State, t: nat, k: Key, pc: Pc, drv: Drivers)
    requires Inv(s) && AllExclusive(s) && GivesBack(s, t, k, pc)
    ensures OwnersStep(s, Frees(t, k), Go(Unlock(s, k).0, t, pc), drv) == true && Owns(s, drv, t, k)
  {
    var s1 := Unlock(s, k).0;
    var s' := Go(s1, t, pc);
    UnlockShape(s, k);
    assert Owns(s, drv, t, k);
    OwnsOwed(s, drv, t, k);
    OneOwner(s, k);
    ReleaseInv(s, t, k, pc);
    UnlockStaysExclusive(s, t, k, pc);
    NowFree(s, t, k, pc);
    forall u, q ensures Owns(s', drv, u, q) == (Owns(s, drv, u, q) && q != k) {
      if q == k {
        if Owns(s', drv, u, k) {
          OwnsOwed(s', drv, u, k);
        }
      } else {
        PcStep(s, s', drv, t, u, q);
      }
    }
  }

  lemma NowFree(s: State, t: nat, k: Key, pc: Pc)
    requires Inv(s) && AllExclusive(s) && GivesBack(s, t, k, pc)
    ensures Owed(Go(Unlock(s, k).0, t, pc), k) == 0
  {
    ReleaseFinds(s, t, k, pc);
    var a := Find(s.buckets[Hash(k)], s.entries, k).value;
    ReleaseOwed(s, t, k, pc, a, Go(Unlock(s, k).0, t, pc));
    OneOwner(s, k);
  }

  lemma ProceedOwners(s: State, t: nat, drv: Drivers)
    requires Inv(s) && AllExclusive(s) && CanMove(s, Proceeds(t)) && Driven(s, drv)
    ensures OwnersStep(s, EffectOf(s, Proceeds(t)), Proceed(s, t), drv) == true
    ensures Possible(s, EffectOf(s, Proceeds(t)), drv) == true
  {
    match s.threads[t]
    case Requesting(_, _, _) => EnterOwners(s, t, drv);
    case Woken(_, _, _, _) => EnterOwners(s, t, drv);
    case Acquired(_, _) => RegisterOwners(s, t, drv);
    case Orphan(k) => ReleaseOwners(s, t, k, Idle(Refused), drv);
    case Releasing(rest) =>
      if rest == [] {
        PcStutter(s, Proceed(s, t), drv, t);
      } else {
        ReleaseOwners(s, t, rest[0], Releasing(rest[1..]), drv);
      }
  }

  /** A record is taken only while nobody has it, and given back only by the thread that has it. */
  ghost predicate Possible(s: State, e: Effect, drv: Drivers) {
    match e
    case Stutter => true
    case Takes(t, key) => forall u :: !Owns(s, drv, u, key)
    case Frees(t, key) => Owns(s, drv, t, key)
  }

  /** Every section is a stutter, takes one free record, or gives back one of the thread's own. */
  lemma SectionIsAtomic(s: State, m: Move, drv: Drivers)
    requires Inv(s) && AllExclusive(s) && Driven(s, drv) && CanMove(s, m) && DrivenMove(s, m, drv)
    ensures Possible(s, EffectOf(s, m), drv) && OwnersStep(s, EffectOf(s, m), Moved(s, m), drv)
  {
    match m
    case Begins(t) => BeginOwners(s, t, drv);
    case Locks(t, _, _, _) => PcStutter(s, Moved(s, m), drv, t);
    case Finishes(t, id) => FinishOwners(s, t, id, drv);
    case Wakes(t) => PcStutter(s, Moved(s, m), drv, t);
    case Proceeds(t) => ProceedOwners(s, t, drv);
  }

  lemma StaysDriven(s: State, m: Move, drv: Drivers)
    requires Inv(s) && Driven(s, drv) && CanMove(s, m) && LocksOwn(m, drv)
    ensures Driven(Moved(s, m), drv) == true
  {
    if m.Proceeds? {
      ProceedDriven(s, m.t, drv);
    } else {
      OneThreadDriven(s, Moved(s, m), m.t, drv);
    }
  }

  /** A section that changes only thread `t`, which is busy for a transaction it drives, if at all. */
  lemma OneThreadDriven(s: State, s': State, t: nat, drv: Drivers)
    requires Driven(s, drv) && t < |s.threads| == |s'.threads| && s'.threads == s.threads[t := s'.threads[t]]
    requires var pc := s'.threads[t]; pc.Requesting? || pc.Asleep? || pc.Woken? || pc.Acquired? ==> drv(pc.txn) == t
    ensures Driven(s', drv) == true
  {
  }

  lemma ProceedDriven(s: State, t: nat, drv: Drivers)
    requires Inv(s) && Driven(s, drv) && CanMove(s, Proceeds(t))
    ensures Driven(Proceed(s, t), drv) == true
  {
    match s.threads[t]
    case Requesting(_, _, _) =>
      EnterShape(s, t);
      OneThreadDriven(s, Proceed(s, t), t, drv);
    case Woken(_, _, _, _) =>
      EnterShape(s, t);
      OneThreadDriven(s, Proceed(s, t), t, drv);
    case Acquired(_, _) => OneThreadDriven(s, Proceed(s, t), t, drv);
    case Orphan(k) => UnlockDriven(s, k, t, Idle(Refused), drv);
    case Releasing(rest) =>
      if rest == [] {
        OneThreadDriven(s, Proceed(s, t), t, drv);
      } else {
        UnlockDriven(s, rest[0], t, Releasing(rest[1..]), drv);
      }
  }

  /** A broadcast wakes threads for the transactions they drive. */
  lemma UnlockDriven(s: State, k: Key, t: nat, pc: Pc, drv: Drivers)
    requires Driven(s, drv) && |s.buckets| == LOCK_TABLE_SIZE && t < |s.threads| && (pc.Idle? || pc.Releasing?)
    ensures Driven(Go(Unlock(s, k).0, t, pc), drv) == true
  {
  }

  // ---------------------------------------------------------------------------
  // Runs as runs on a map of owners
  // ---------------------------------------------------------------------------

  /** `owners` says who has what. */
  ghost predicate IsOwnerMap(s: State, drv: Drivers, owners: map<Key, nat>) {
    && (forall k :: k in owners ==> Owns(s, drv, owners[k], k))
    && (forall u, k :: Owns(s, drv, u, k) ==> k in owners && owners[k] == u)
  }

  /** An acquisition needs a free record; a release is by the owner. */
  ghost predicate Allowed(owners: map<Key, nat>, e: Effect) {
    match e
    case Stutter => true
    case Takes(_, key) => key !in owners
    case Frees(t, key) => key in owners && owners[key] == t
  }

  ghost function Apply(owners: map<Key, nat>, e: Effect): map<Key, nat> {
    match e
    case Stutter => owners
    case Takes(t, key) => owners[key := t]
    case Frees(_, key) => owners - {key}
  }

  lemma EffectOnMap(s: State, m: Move, drv: Drivers, owners: map<Key, nat>)
    requires Inv(s) && AllExclusive(s) && Driven(s, drv) && CanMove(s, m) && DrivenMove(s, m, drv) && IsOwnerMap(s, drv, owners)
    ensures Allowed(owners, EffectOf(s, m)) && IsOwnerMap(Moved(s, m), drv, Apply(owners, EffectOf(s, m)))
  {
    SectionIsAtomic(s, m, drv);
  }

  ghost predicate DrivenRuns(s: State, ms: seq<Move>, drv: Drivers)
    requires |s.buckets| == LOCK_TABLE_SIZE && Runs(s, ms)
    decreases |ms|
  {
    ms != [] ==> DrivenMove(s, ms[0], drv) && DrivenRuns(Moved(s, ms[0]), ms[1..], drv)
  }

  ghost function Effects(s: State, ms: seq<Move>): seq<Effect>
    requires |s.buckets| == LOCK_TABLE_SIZE && Runs(s, ms)
    decreases |ms|
  {
    if ms == [] then [] else [EffectOf(s, ms[0])] + Effects(Moved(s, ms[0]), ms[1..])
  }

  ghost predicate AllAllowed(owners: map<Key, nat>, es: seq<Effect>)
    decreases |es|
  {
    es != [] ==> Allowed(owners, es[0]) && AllAllowed(Apply(owners, es[0]), es[1..])
  }

  ghost function ApplyAll(owners: map<Key, nat>, es: seq<Effect>): map<Key, nat>
    decreases |es|
  {
    if es == [] then owners else ApplyAll(Apply(owners, es[0]), es[1..])
  }

  /** Any run of exclusive requests, with waiting, waking and hash collisions, is a run of atomic acquisitions and releases
      on a map of single owners. */
  lemma {:induction false} RunsAreAtomic(s: State, ms: seq<Move>, drv: Drivers, owners: map<Key, nat>)
    requires Inv(s) && AllExclusive(s) && Driven(s, drv) && IsOwnerMap(s, drv, owners)
    requires Runs(s, ms) && DrivenRuns(s, ms, drv)
    ensures AllAllowed(owners, Effects(s, ms))
    ensures Inv(After(s, ms)) && IsOwnerMap(After(s, ms), drv, ApplyAll(owners, Effects(s, ms)))
    decreases |ms|
  {
    if ms != [] {
      var m := ms[0];
      MoveInv(s, m);
      StaysExclusive(s, m);
      StaysDriven(s, m, drv);
      EffectOnMap(s, m, drv, owners);
      RunsAreAtomic(Moved(s, m), ms[1..], drv, Apply(owners, EffectOf(s, m)));
      TailAppend([EffectOf(s, m)], Effects(Moved(s, m), ms[1..]));
      OneTail(EffectOf(s, m));
      AppendNothing(Effects(Moved(s, m), ms[1..]));
    }
  }

  /** At the start nobody owns anything. */
  lemma InitialOwners(n: nat, drv: Drivers)
    ensures Inv(Initial(n)) && AllExclusive(Initial(n)) && Driven(Initial(n), drv) && IsOwnerMap(Initial(n), drv, map[])
  {
    InitialInv(n);
    var s := Initial(n);
    forall u, k ensures !Owns(s, drv, u, k) {}
  }
}
