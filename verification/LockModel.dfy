// The lock and transaction managers as a step system: each section under one mutex is one atomic step, and a thread
// in pthread_cond_wait is asleep until a broadcast or a spurious wakeup.
module LockModel {
  import opened Common

  const LOCK_TABLE_SIZE := 251
  const MAX_ACTIVE_TXNS := 128
  const MAX_LOCKS_PER_TXN := 64

  type TxnId = nat
  type Addr = nat

  datatype Key = Key(table: nat, id: nat)

  datatype Mode = Shared | Exclusive

  /** A lock entry on a bucket's list. */
  datatype Entry = Entry(key: Key, shared: nat, exclusive: bool, waiters: nat)

  datatype Slot = Slot(id: TxnId, active: bool, locks: seq<Key>)

  datatype Reply = Done | Refused | Began(id: TxnId)

  /** Where a thread is between two sections. */
  datatype Pc =
    | Idle(reply: Reply)
    | Requesting(txn: TxnId, key: Key, mode: Mode)
    | Asleep(txn: TxnId, key: Key, mode: Mode, entry: Addr)
    | Woken(txn: TxnId, key: Key, mode: Mode, entry: Addr)
    | Acquired(txn: TxnId, key: Key)
    | Orphan(key: Key)
    | Releasing(rest: seq<Key>)

  datatype State = State(
    buckets: seq<seq<Addr>>,
    entries: map<Addr, Entry>,
    nextAddr: Addr,
    txns: seq<Slot>,
    nextTxn: TxnId,
    threads: seq<Pc>)

  /** lock_hash */
  function Hash(k: Key): (h: nat)
    ensures h < LOCK_TABLE_SIZE
  {
    ((k.table * 10007 + k.id) % WORD) % LOCK_TABLE_SIZE
  }

  /** find_entry: the first entry for `k` on a bucket's list. */
  function Find(list: seq<Addr>, entries: map<Addr, Entry>, k: Key): Option<Addr> {
    if list == [] then None
    else if list[0] in entries && entries[list[0]].key == k then Some(list[0])
    else Find(list[1..], entries, k)
  }

  predicate Compatible(e: Entry, m: Mode) {
    !e.exclusive && (m == Exclusive ==> e.shared == 0)
  }

  function Grant(e: Entry, m: Mode): Entry {
    if m == Shared then e.(shared := e.shared + 1) else e.(exclusive := true)
  }

  predicate InUse(e: Entry) {
    e.shared > 0 || e.exclusive || e.waiters > 0
  }

  function Without(list: seq<Addr>, a: Addr): seq<Addr> {
    if list == [] then [] else if list[0] == a then list[1..] else [list[0]] + Without(list[1..], a)
  }

  /** find_txn_locked: the index of the active transaction `id`, or the number of slots. */
  function FindTxn(txns: seq<Slot>, id: TxnId): (i: nat)
    ensures i <= |txns|
    ensures i < |txns| ==> txns[i].active && txns[i].id == id
  {
    if txns == [] then 0
    else if txns[0].active && txns[0].id == id then 0
    else 1 + FindTxn(txns[1..], id)
  }

  function FreeSlot(txns: seq<Slot>): (i: nat)
    ensures i <= |txns|
    ensures i < |txns| ==> !txns[i].active
  {
    if txns == [] then 0 else if !txns[0].active then 0 else 1 + FreeSlot(txns[1..])
  }

  // ---------------------------------------------------------------------------
  // Sections
  // ---------------------------------------------------------------------------

  function Go(s: State, t: nat, pc: Pc): State
    requires t < |s.threads|
  {
    s.(threads := s.threads[t := pc])
  }

  /** txn_begin */
  function Begin(s: State, t: nat): State
    requires t < |s.threads|
  {
    var i := FreeSlot(s.txns);
    if i == |s.txns| then Go(s, t, Idle(Refused))
    else Go(s, t, Idle(Began(s.nextTxn))).(txns := s.txns[i := Slot(s.nextTxn, true, [])], nextTxn := s.nextTxn + 1)
  }

  /** The first section of txn_lock, under tm->mutex. */
  function LockCheck(s: State, t: nat, id: TxnId, k: Key, m: Mode): State
    requires t < |s.threads|
  {
    var i := FindTxn(s.txns, id);
    Go(s, t, if i == |s.txns| then Idle(Refused)
             else if k in s.txns[i].locks then Idle(Done)
             else if |s.txns[i].locks| >= MAX_LOCKS_PER_TXN then Idle(Refused)
             else Requesting(id, k, m))
  }

  /** lock_mgr_lock once it holds the bucket's mutex and has its entry: grant the lock, or wait. */
  function TryGrant(s: State, t: nat, id: TxnId, k: Key, m: Mode, a: Addr): State
    requires t < |s.threads| && a in s.entries
  {
    var e := s.entries[a];
    if Compatible(e, m) then Go(s, t, Acquired(id, k)).(entries := s.entries[a := Grant(e, m)])
    else Go(s, t, Asleep(id, k, m, a)).(entries := s.entries[a := e.(waiters := e.waiters + 1)])
  }

  /** lock_mgr_lock from its start: the entry is found, or put at the head of its bucket. */
  function LockEnter(s: State, t: nat, id: TxnId, k: Key, m: Mode): State
    requires t < |s.threads| && |s.buckets| == LOCK_TABLE_SIZE
  {
    var h := Hash(k);
    match Find(s.buckets[h], s.entries, k)
    case Some(a) => if a in s.entries then TryGrant(s, t, id, k, m, a) else s
    case None =>
      var a := s.nextAddr;
      TryGrant(s.(entries := s.entries[a := Entry(k, 0, false, 0)], buckets := s.buckets[h := [a] + s.buckets[h]],
                  nextAddr := a + 1), t, id, k, m, a)
  }

  /** A woken thread has the bucket's mutex again. */
  function LockResume(s: State, t: nat, id: TxnId, k: Key, m: Mode, a: Addr): State
    requires t < |s.threads| && a in s.entries && s.entries[a].waiters > 0
  {
    TryGrant(s.(entries := s.entries[a := s.entries[a].(waiters := s.entries[a].waiters - 1)]), t, id, k, m, a)
  }

  /** The last section of txn_lock: the lock is registered, unless the transaction has ended meanwhile. */
  function LockRegister(s: State, t: nat, id: TxnId, k: Key): State
    requires t < |s.threads|
  {
    var i := FindTxn(s.txns, id);
    if i == |s.txns| then Go(s, t, Orphan(k))
    else Go(s, t, Idle(Done)).(txns := s.txns[i := s.txns[i].(locks := s.txns[i].locks + [k])])
  }

  /** pthread_cond_broadcast on entry `a`. */
  function Broadcast(threads: seq<Pc>, a: Addr): (r: seq<Pc>)
    ensures |r| == |threads|
    ensures forall i :: 0 <= i < |r| ==>
              r[i] == if threads[i].Asleep? && threads[i].entry == a
                      then Woken(threads[i].txn, threads[i].key, threads[i].mode, a) else threads[i]
  {
    seq(|threads|, i requires 0 <= i < |threads| =>
      if threads[i].Asleep? && threads[i].entry == a then Woken(threads[i].txn, threads[i].key, threads[i].mode, a)
      else threads[i])
  }

  /** lock_mgr_unlock: false when there is nothing to release. */
  function Unlock(s: State, k: Key): (r: (State, bool))
    requires |s.buckets| == LOCK_TABLE_SIZE
    ensures |r.0.threads| == |s.threads| && |r.0.buckets| == |s.buckets|
  {
    var h := Hash(k);
    match Find(s.buckets[h], s.entries, k)
    case None => (s, false)
    case Some(a) =>
      if a !in s.entries || (!s.entries[a].exclusive && s.entries[a].shared == 0) then (s, false)
      else
        var e := s.entries[a];
        var e' := if e.exclusive then e.(exclusive := false) else e.(shared := e.shared - 1);
        var s' := s.(threads := Broadcast(s.threads, a));
        if InUse(e') then (s'.(entries := s.entries[a := e']), true)
        else (s'.(entries := s.entries - {a}, buckets := s.buckets[h := Without(s.buckets[h], a)]), true)
  }

  /** The section of txn_commit or txn_abort under tm->mutex: the locks are copied and the slot is given up. */
  function Finish(s: State, t: nat, id: TxnId): State
    requires t < |s.threads|
  {
    var i := FindTxn(s.txns, id);
    if i == |s.txns| then Go(s, t, Idle(Refused))
    else Go(s, t, Releasing(s.txns[i].locks)).(txns := s.txns[i := s.txns[i].(active := false, locks := [])])
  }

  // ---------------------------------------------------------------------------
  // Moves
  // ---------------------------------------------------------------------------

  datatype Move =
    | Begins(t: nat)
    | Locks(t: nat, txn: TxnId, key: Key, mode: Mode)
    | Finishes(t: nat, txn: TxnId)
    | Wakes(t: nat)
    | Proceeds(t: nat)

  ghost predicate CanMove(s: State, m: Move) {
    && m.t < |s.threads|
    && match m
       case Begins(t) => s.threads[t].Idle?
       case Locks(t, _, _, _) => s.threads[t].Idle?
       case Finishes(t, _) => s.threads[t].Idle?
       case Wakes(t) => s.threads[t].Asleep?
       case Proceeds(t) => !s.threads[t].Idle? && !s.threads[t].Asleep?
  }

  /** The thread's next section. */
  function Proceed(s: State, t: nat): State
    requires t < |s.threads| && |s.buckets| == LOCK_TABLE_SIZE
  {
    match s.threads[t]
    case Requesting(id, k, m) => LockEnter(s, t, id, k, m)
    case Woken(id, k, m, a) => if a in s.entries && s.entries[a].waiters > 0 then LockResume(s, t, id, k, m, a) else s
    case Acquired(id, k) => LockRegister(s, t, id, k)
    case Orphan(k) => Go(Unlock(s, k).0, t, Idle(Refused))
    case Releasing(rest) =>
      if rest == [] then Go(s, t, Idle(Done)) else Go(Unlock(s, rest[0]).0, t, Releasing(rest[1..]))
    case _ => s
  }

  function Moved(s: State, m: Move): State
    requires m.t < |s.threads| && |s.buckets| == LOCK_TABLE_SIZE
  {
    match m
    case Begins(t) => Begin(s, t)
    case Locks(t, id, k, mode) => LockCheck(s, t, id, k, mode)
    case Finishes(t, id) => Finish(s, t, id)
    case Wakes(t) => (match s.threads[t] case Asleep(id, k, mode, a) => Go(s, t, Woken(id, k, mode, a)) case _ => s)
    case Proceeds(t) => Proceed(s, t)
  }

  function Initial(threads: nat): State {
    State(seq(LOCK_TABLE_SIZE, _ => []), map[], 0, seq(MAX_ACTIVE_TXNS, _ => Slot(0, false, [])), 1,
          seq(threads, _ => Idle(Done)))
  }
}
