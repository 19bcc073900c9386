// Strict two-phase locking never leaks a lock and never releases one twice; exclusive means alone; nobody sleeps on a
// lock that would be granted.
module LockSafety {
  import opened LockModel
  import opened Common

  // ---------------------------------------------------------------------------
  // Counting
  // ---------------------------------------------------------------------------

  ghost function Count(ks: seq<Key>, k: Key): nat {
    if ks == [] then 0 else (if ks[0] == k then 1 else 0) + Count(ks[1..], k)
  }

  /** The holds on `k` a thread will still register or give back. */
  ghost function PcOwes(pc: Pc, k: Key): nat {
    match pc
    case Acquired(_, key) => if key == k then 1 else 0
    case Orphan(key) => if key == k then 1 else 0
    case Releasing(rest) => Count(rest, k)
    case _ => 0
  }

  ghost function ThreadSum(threads: seq<Pc>, k: Key): nat {
    if threads == [] then 0 else PcOwes(threads[0], k) + ThreadSum(threads[1..], k)
  }

  ghost function SlotSum(txns: seq<Slot>, k: Key): nat {
    if txns == [] then 0 else Count(txns[0].locks, k) + SlotSum(txns[1..], k)
  }

  /** All holds on `k` somebody answers for: registered with a transaction, about to be registered, or being returned. */
  ghost function Owed(s: State, k: Key): nat {
    ThreadSum(s.threads, k) + SlotSum(s.txns, k)
  }

  ghost predicate WaitsOn(pc: Pc, a: Addr) {
    (pc.Asleep? || pc.Woken?) && pc.entry == a
  }

  ghost function Waiting(threads: seq<Pc>, a: Addr): nat {
    if threads == [] then 0 else (if WaitsOn(threads[0], a) then 1 else 0) + Waiting(threads[1..], a)
  }

  lemma {:induction false} CountAppend(ks: seq<Key>, x: Key, k: Key)
    ensures Count(ks + [x], k) == Count(ks, k) + (if x == k then 1 else 0)
    decreases |ks|
  {
    if ks == [] {
      assert ks + [x] == [x] && [x][1..] == [];
    } else {
      assert (ks + [x])[1..] == ks[1..] + [x];
      CountAppend(ks[1..], x, k);
    }
  }

  lemma {:induction false} CountIn(ks: seq<Key>, k: Key)
    ensures Count(ks, k) > 0 <==> k in ks
    decreases |ks|
  {
    if ks != [] {
      CountIn(ks[1..], k);
      assert ks == [ks[0]] + ks[1..];
    }
  }

  lemma {:induction false} ThreadSumSet(threads: seq<Pc>, t: nat, pc: Pc, k: Key)
    requires t < |threads|
    ensures ThreadSum(threads[t := pc], k) + PcOwes(threads[t], k) == ThreadSum(threads, k) + PcOwes(pc, k)
    decreases |threads|
  {
    if t == 0 {
      assert threads[t := pc][1..] == threads[1..];
    } else {
      assert threads[t := pc][1..] == threads[1..][t - 1 := pc];
      ThreadSumSet(threads[1..], t - 1, pc, k);
    }
  }

  lemma {:induction false} SlotSumSet(txns: seq<Slot>, i: nat, x: Slot, k: Key)
    requires i < |txns|
    ensures SlotSum(txns[i := x], k) + Count(txns[i].locks, k) == SlotSum(txns, k) + Count(x.locks, k)
    decreases |txns|
  {
    if i == 0 {
      assert txns[i := x][1..] == txns[1..];
    } else {
      assert txns[i := x][1..] == txns[1..][i - 1 := x];
      SlotSumSet(txns[1..], i - 1, x, k);
    }
  }

  lemma {:induction false} WaitingSet(threads: seq<Pc>, t: nat, pc: Pc, a: Addr)
    requires t < |threads|
    ensures Waiting(threads[t := pc], a) + (if WaitsOn(threads[t], a) then 1 else 0)
         == Waiting(threads, a) + (if WaitsOn(pc, a) then 1 else 0)
    decreases |threads|
  {
    if t == 0 {
      assert threads[t := pc][1..] == threads[1..];
    } else {
      assert threads[t := pc][1..] == threads[1..][t - 1 := pc];
      WaitingSet(threads[1..], t - 1, pc, a);
    }
  }

  lemma {:induction false} BroadcastSums(threads: seq<Pc>, b: Addr, k: Key, a: Addr)
    ensures ThreadSum(Broadcast(threads, b), k) == ThreadSum(threads, k)
    ensures Waiting(Broadcast(threads, b), a) == Waiting(threads, a)
    decreases |threads|
  {
    if threads != [] {
      assert Broadcast(threads, b)[1..] == Broadcast(threads[1..], b);
      BroadcastSums(threads[1..], b, k, a);
    }
  }

  lemma {:induction false} ThreadOwes(threads: seq<Pc>, t: nat, k: Key)
    requires t < |threads|
    ensures PcOwes(threads[t], k) <= ThreadSum(threads, k)
    decreases |threads|
  {
    if t > 0 {
      ThreadOwes(threads[1..], t - 1, k);
    }
  }

  lemma {:induction false} TwoThreadsOwe(threads: seq<Pc>, t: nat, u: nat, k: Key)
    requires t < u < |threads|
    ensures PcOwes(threads[t], k) + PcOwes(threads[u], k) <= ThreadSum(threads, k)
    decreases |threads|
  {
    if t == 0 {
      ThreadOwes(threads[1..], u - 1, k);
    } else {
      TwoThreadsOwe(threads[1..], t - 1, u - 1, k);
    }
  }

  lemma {:induction false} SlotOwes(txns: seq<Slot>, i: nat, k: Key)
    requires i < |txns|
    ensures Count(txns[i].locks, k) <= SlotSum(txns, k)
    decreases |txns|
  {
    if i > 0 {
      SlotOwes(txns[1..], i - 1, k);
    }
  }

  lemma {:induction false} TwoSlotsOwe(txns: seq<Slot>, i: nat, j: nat, k: Key)
    requires i < j < |txns|
    ensures Count(txns[i].locks, k) + Count(txns[j].locks, k) <= SlotSum(txns, k)
    decreases |txns|
  {
    if i == 0 {
      SlotOwes(txns[1..], j - 1, k);
    } else {
      TwoSlotsOwe(txns[1..], i - 1, j - 1, k);
    }
  }

  // ---------------------------------------------------------------------------
  // The invariant
  // ---------------------------------------------------------------------------

  ghost function HeldBy(e: Entry): nat {
    e.shared + (if e.exclusive then 1 else 0)
  }

  /** Entries sit on the list of their hash, once, and no two are for the same record. */
  ghost predicate TableOk(s: State) {
    && |s.buckets| == LOCK_TABLE_SIZE
    && (forall h :: 0 <= h < |s.buckets| ==> ListOk(s, h))
    && (forall a :: a in s.entries ==> Listed(s, a))
    && UniqueKeys(s.entries)
  }

  ghost predicate ListOk(s: State, h: nat)
    requires h < |s.buckets|
  {
    Distinct(s.buckets[h]) && forall a :: a in s.buckets[h] ==> a in s.entries && Hash(s.entries[a].key) == h
  }

  ghost predicate Listed(s: State, a: Addr)
    requires a in s.entries && |s.buckets| == LOCK_TABLE_SIZE
  {
    a in s.buckets[Hash(s.entries[a].key)] && a < s.nextAddr
  }

  ghost predicate UniqueKeys(entries: map<Addr, Entry>) {
    forall a, b :: a in entries && b in entries && entries[a].key == entries[b].key ==> a == b
  }

  ghost predicate HasEntry(s: State, k: Key) {
    exists a :: a in s.entries && s.entries[a].key == k
  }

  /** The holds in the lock table are exactly the holds somebody answers for. */
  ghost predicate Accounted(s: State) {
    && (forall a :: a in s.entries ==> HeldBy(s.entries[a]) == Owed(s, s.entries[a].key))
    && (forall k :: !HasEntry(s, k) ==> Owed(s, k) == 0)
  }

  /** An entry exists only while held or waited for; exclusive excludes shared; its waiters are its waiting threads. */
  ghost predicate EntriesOk(s: State) {
    forall a :: a in s.entries ==>
      && InUse(s.entries[a]) && !(s.entries[a].exclusive && s.entries[a].shared > 0)
      && s.entries[a].waiters == Waiting(s.threads, a)
  }

  /** A waiting thread's entry is there; a sleeping thread could not be granted its lock. */
  ghost predicate WaitersOk(s: State) {
    forall t :: 0 <= t < |s.threads| && (s.threads[t].Asleep? || s.threads[t].Woken?) ==>
      && s.threads[t].entry in s.entries && s.entries[s.threads[t].entry].key == s.threads[t].key
      && (s.threads[t].Asleep? ==> !Compatible(s.entries[s.threads[t].entry], s.threads[t].mode))
  }

  ghost predicate SlotsOk(s: State) {
    && |s.txns| == MAX_ACTIVE_TXNS
    && (forall i :: 0 <= i < |s.txns| ==> (s.txns[i].active ==> s.txns[i].id < s.nextTxn) && (!s.txns[i].active ==> s.txns[i].locks == []))
    && (forall i, j :: 0 <= i < j < |s.txns| && s.txns[i].active && s.txns[j].active ==> s.txns[i].id != s.txns[j].id)
  }

  ghost predicate Inv(s: State) {
    TableOk(s) && Accounted(s) && EntriesOk(s) && WaitersOk(s) && SlotsOk(s)
  }

  lemma {:induction false} FindIs(list: seq<Addr>, entries: map<Addr, Entry>, k: Key)
    requires forall a :: a in list ==> a in entries
    ensures match Find(list, entries, k)
            case Some(a) => a in list && a in entries && entries[a].key == k
            case None => forall a :: a in list ==> entries[a].key != k
    decreases |list|
  {
    if list != [] {
      FindIs(list[1..], entries, k);
      assert list == [list[0]] + list[1..];
    }
  }

  /** find_entry finds the one entry of a record, whatever else hashes to its bucket. */
  lemma FindEntry(s: State, k: Key)
    requires TableOk(s)
    ensures match Find(s.buckets[Hash(k)], s.entries, k)
            case Some(a) => a in s.entries && s.entries[a].key == k
            case None => !HasEntry(s, k)
  {
    assert ListOk(s, Hash(k));
    FindIs(s.buckets[Hash(k)], s.entries, k);
    assert forall a :: a in s.entries ==> Listed(s, a);
  }

  // ---------------------------------------------------------------------------
  // Sections that leave the lock table alone
  // ---------------------------------------------------------------------------

  /** A section that changes one thread and the slots, and owes for every record what was owed before. */
  lemma SectionOk(s: State, s': State, t: nat, pc: Pc)
    requires Inv(s) && t < |s.threads| && s'.threads == s.threads[t := pc] && SlotsOk(s')
    requires s'.buckets == s.buckets && s'.entries == s.entries && s'.nextAddr == s.nextAddr
    requires forall a :: WaitsOn(pc, a) <==> WaitsOn(s.threads[t], a)
    requires pc.Asleep? ==> pc == s.threads[t]
    requires pc.Woken? ==> WaitsOn(s.threads[t], pc.entry) && pc.key == s.threads[t].key
    requires forall k :: Owed(s', k) == Owed(s, k)
    ensures Inv(s')
  {
    SameTable(s, s');
    SameHasEntry(s, s');
    forall a | a in s.entries ensures Waiting(s'.threads, a) == Waiting(s.threads, a) {
      WaitingSet(s.threads, t, pc, a);
    }
    assert forall u :: 0 <= u < |s'.threads| ==> s'.threads[u] == if u == t then pc else s.threads[u];
  }

  lemma BeginInv(s: State, t: nat)
    requires Inv(s) && t < |s.threads| && s.threads[t].Idle?
    ensures Inv(Begin(s, t))
  {
    var s', i := Begin(s, t), FreeSlot(s.txns);
    forall k ensures Owed(s', k) == Owed(s, k) {
      ThreadSumSet(s.threads, t, s'.threads[t], k);
      if i < |s.txns| {
        SlotSumSet(s.txns, i, s'.txns[i], k);
      }
    }
    SectionOk(s, s', t, s'.threads[t]);
  }

  lemma CheckInv(s: State, t: nat, id: TxnId, k: Key, m: Mode)
    requires Inv(s) && t < |s.threads| && s.threads[t].Idle?
    ensures Inv(LockCheck(s, t, id, k, m))
  {
    var s' := LockCheck(s, t, id, k, m);
    forall q ensures Owed(s', q) == Owed(s, q) {
      ThreadSumSet(s.threads, t, s'.threads[t], q);
    }
    SectionOk(s, s', t, s'.threads[t]);
  }

  lemma RegisterInv(s: State, t: nat)
    requires Inv(s) && t < |s.threads| && s.threads[t].Acquired?
    ensures Inv(LockRegister(s, t, s.threads[t].txn, s.threads[t].key))
  {
    var id, key := s.threads[t].txn, s.threads[t].key;
    var s', i := LockRegister(s, t, id, key), FindTxn(s.txns, id);
    forall q ensures Owed(s', q) == Owed(s, q) {
      ThreadSumSet(s.threads, t, s'.threads[t], q);
      if i < |s.txns| {
        SlotSumSet(s.txns, i, s'.txns[i], q);
        CountAppend(s.txns[i].locks, key, q);
      }
    }
    SectionOk(s, s', t, s'.threads[t]);
  }

  /** Ending a transaction, from its own thread or another one, moves what it owes to the copied list. */
  lemma FinishInv(s: State, t: nat, id: TxnId)
    requires Inv(s) && t < |s.threads| && s.threads[t].Idle?
    ensures Inv(Finish(s, t, id))
  {
    var s', i := Finish(s, t, id), FindTxn(s.txns, id);
    forall q ensures Owed(s', q) == Owed(s, q) {
      ThreadSumSet(s.threads, t, s'.threads[t], q);
      if i < |s.txns| {
        SlotSumSet(s.txns, i, s'.txns[i], q);
      }
    }
    SectionOk(s, s', t, s'.threads[t]);
  }

  lemma WakeInv(s: State, t: nat)
    requires Inv(s) && t < |s.threads| && s.threads[t].Asleep?
    ensures Inv(Moved(s, Wakes(t)))
  {
    var s' := Moved(s, Wakes(t));
    forall q ensures Owed(s', q) == Owed(s, q) {
      ThreadSumSet(s.threads, t, s'.threads[t], q);
    }
    SectionOk(s, s', t, s'.threads[t]);
  }

  // ---------------------------------------------------------------------------
  // Acquiring
  // ---------------------------------------------------------------------------

  /** Thread `t` holds the bucket's mutex and has entry `a` for `k`, whose waiters no longer include it. */
  ghost predicate AtEntry(s: State, t: nat, k: Key, a: Addr) {
    && TableOk(s) && SlotsOk(s) && WaitersOk(s) && t < |s.threads| && a in s.entries && s.entries[a].key == k
    && (s.threads[t].Requesting? || (s.threads[t].Woken? && s.threads[t].entry == a))
    && EntriesBut(s, t, a) && Accounted(s)
  }

  /** The entries are in order, but `a` does not count thread `t` and may be unused. */
  ghost predicate EntriesBut(s: State, t: nat, a: Addr)
    requires t < |s.threads| && a in s.entries
  {
    && !(s.entries[a].exclusive && s.entries[a].shared > 0)
    && s.entries[a].waiters + (if WaitsOn(s.threads[t], a) then 1 else 0) == Waiting(s.threads, a)
    && (forall b :: b in s.entries && b != a ==>
          InUse(s.entries[b]) && !(s.entries[b].exclusive && s.entries[b].shared > 0) && s.entries[b].waiters == Waiting(s.threads, b))
  }

  lemma GrantWaiting(s: State, t: nat, id: TxnId, k: Key, m: Mode, a: Addr)
    requires AtEntry(s, t, k, a)
    ensures forall b :: b in s.entries ==> TryGrant(s, t, id, k, m, a).entries[b].waiters == Waiting(TryGrant(s, t, id, k, m, a).threads, b)
  {
    var s' := TryGrant(s, t, id, k, m, a);
    forall b | b in s.entries ensures s'.entries[b].waiters == Waiting(s'.threads, b) {
      WaitingSet(s.threads, t, s'.threads[t], b);
    }
  }

  /** The lock is granted: nobody who sleeps could have had it. */
  lemma GrantedThreads(s: State, t: nat, id: TxnId, k: Key, m: Mode, a: Addr)
    requires AtEntry(s, t, k, a) && Compatible(s.entries[a], m)
    ensures WaitersOk(TryGrant(s, t, id, k, m, a))
  {
    var s' := TryGrant(s, t, id, k, m, a);
    assert forall u :: 0 <= u < |s'.threads| ==> s'.threads[u] == if u == t then Acquired(id, k) else s.threads[u];
  }

  /** The lock is not granted: the thread sleeps on it. */
  lemma SleepingThreads(s: State, t: nat, id: TxnId, k: Key, m: Mode, a: Addr)
    requires AtEntry(s, t, k, a) && !Compatible(s.entries[a], m)
    ensures WaitersOk(TryGrant(s, t, id, k, m, a))
  {
    var s' := TryGrant(s, t, id, k, m, a);
    assert forall u :: 0 <= u < |s'.threads| ==> s'.threads[u] == if u == t then Asleep(id, k, m, a) else s.threads[u];
  }

  lemma GrantEntries(s: State, t: nat, id: TxnId, k: Key, m: Mode, a: Addr)
    requires AtEntry(s, t, k, a)
    ensures EntriesOk(TryGrant(s, t, id, k, m, a))
  {
    GrantWaiting(s, t, id, k, m, a);
  }

  lemma GrantThreads(s: State, t: nat, id: TxnId, k: Key, m: Mode, a: Addr)
    requires AtEntry(s, t, k, a)
    ensures WaitersOk(TryGrant(s, t, id, k, m, a)) == true
  {
    if Compatible(s.entries[a], m) {
      GrantedThreads(s, t, id, k, m, a);
    } else {
      SleepingThreads(s, t, id, k, m, a);
    }
  }

  lemma GrantOwed(s: State, t: nat, pc: Pc, k: Key, s': State)
    requires t < |s.threads| && PcOwes(s.threads[t], k) == 0 && s'.threads == s.threads[t := pc] && s'.txns == s.txns
    ensures Owed(s', k) == Owed(s, k) + PcOwes(pc, k)
  {
    ThreadSumSet(s.threads, t, pc, k);
  }

  lemma GrantedAccounts(s: State, t: nat, id: TxnId, k: Key, m: Mode, a: Addr)
    requires Accounted(s) && t < |s.threads| && (s.threads[t].Requesting? || s.threads[t].Woken?)
    requires a in s.entries && s.entries[a].key == k && Compatible(s.entries[a], m) && UniqueKeys(s.entries)
    ensures Accounted(TryGrant(s, t, id, k, m, a))
  {
    var s' := TryGrant(s, t, id, k, m, a);
    assert HeldBy(s'.entries[a]) == HeldBy(s.entries[a]) + 1;
    SameHasEntry(s, s');
    forall q ensures Owed(s', q) == Owed(s, q) + (if q == k then 1 else 0) {
      GrantOwed(s, t, Acquired(id, k), q, s');
    }
    assert HasEntry(s, k);
  }

  lemma SleepingAccounts(s: State, t: nat, id: TxnId, k: Key, m: Mode, a: Addr)
    requires Accounted(s) && t < |s.threads| && (s.threads[t].Requesting? || s.threads[t].Woken?)
    requires a in s.entries && s.entries[a].key == k && !Compatible(s.entries[a], m)
    ensures Accounted(TryGrant(s, t, id, k, m, a))
  {
    var s' := TryGrant(s, t, id, k, m, a);
    SameHasEntry(s, s');
    forall q ensures Owed(s', q) == Owed(s, q) {
      GrantOwed(s, t, Asleep(id, k, m, a), q, s');
    }
  }

  lemma GrantAccounts(s: State, t: nat, id: TxnId, k: Key, m: Mode, a: Addr)
    requires AtEntry(s, t, k, a)
    ensures Accounted(TryGrant(s, t, id, k, m, a)) == true
  {
    if Compatible(s.entries[a], m) {
      GrantedAccounts(s, t, id, k, m, a);
    } else {
      SleepingAccounts(s, t, id, k, m, a);
    }
  }

  lemma GrantTable(s: State, t: nat, id: TxnId, k: Key, m: Mode, a: Addr)
    requires TableOk(s) && t < |s.threads| && a in s.entries
    ensures TableOk(TryGrant(s, t, id, k, m, a)) && TryGrant(s, t, id, k, m, a).txns == s.txns
    ensures TryGrant(s, t, id, k, m, a).nextTxn == s.nextTxn
  {
    SameTable(s, TryGrant(s, t, id, k, m, a));
  }

  lemma GrantInv(s: State, t: nat, id: TxnId, k: Key, m: Mode, a: Addr)
    requires AtEntry(s, t, k, a)
    ensures Inv(TryGrant(s, t, id, k, m, a)) == true
  {
    GrantThreads(s, t, id, k, m, a);
    GrantEntries(s, t, id, k, m, a);
    GrantAccounts(s, t, id, k, m, a);
    GrantTable(s, t, id, k, m, a);
  }

  ghost function WithNewEntry(s: State, k: Key): State
    requires |s.buckets| == LOCK_TABLE_SIZE
  {
    s.(entries := s.entries[s.nextAddr := Entry(k, 0, false, 0)],
       buckets := s.buckets[Hash(k) := [s.nextAddr] + s.buckets[Hash(k)]], nextAddr := s.nextAddr + 1)
  }

  lemma {:induction false} NobodyWaits(threads: seq<Pc>, a: Addr)
    requires forall t :: 0 <= t < |threads| ==> !WaitsOn(threads[t], a)
    ensures Waiting(threads, a) == 0
    decreases |threads|
  {
    if threads != [] {
      NobodyWaits(threads[1..], a);
    }
  }

  lemma NewEntryList(s: State, k: Key, h: nat)
    requires TableOk(s) && h < |s.buckets|
    ensures ListOk(WithNewEntry(s, k), h)
  {
    var s', a := WithNewEntry(s, k), s.nextAddr;
    assert ListOk(s, h);
    forall b | b in s.buckets[h] ensures b != a && b in s.entries && Hash(s.entries[b].key) == h {
      assert Listed(s, b);
    }
    if h == Hash(k) {
      forall i, j | 0 <= i < j < |s'.buckets[h]| ensures s'.buckets[h][i] != s'.buckets[h][j] {
        assert s'.buckets[h][j] == s.buckets[h][j - 1] && s.buckets[h][j - 1] in s.buckets[h];
        assert i > 0 ==> s'.buckets[h][i] == s.buckets[h][i - 1];
      }
    }
  }

  lemma NewEntryTable(s: State, k: Key)
    requires TableOk(s) && !HasEntry(s, k)
    ensures TableOk(WithNewEntry(s, k)) && s.nextAddr !in s.entries
  {
    var s', a := WithNewEntry(s, k), s.nextAddr;
    assert a in s.entries ==> Listed(s, a);
    forall h | 0 <= h < |s'.buckets| ensures ListOk(s', h) {
      NewEntryList(s, k, h);
    }
    forall b | b in s'.entries ensures Listed(s', b) {
      assert b != a ==> Listed(s, b);
    }
  }

  lemma NewEntryAt(s: State, t: nat, k: Key)
    requires Inv(s) && t < |s.threads| && s.threads[t].Requesting? && !HasEntry(s, k)
    ensures AtEntry(WithNewEntry(s, k), t, k, s.nextAddr)
  {
    var s', a := WithNewEntry(s, k), s.nextAddr;
    NewEntryTable(s, k);
    forall u | 0 <= u < |s.threads| ensures !WaitsOn(s.threads[u], a) {
      assert (s.threads[u].Asleep? || s.threads[u].Woken?) ==> s.threads[u].entry in s.entries;
    }
    NobodyWaits(s.threads, a);
    forall q ensures HasEntry(s', q) <==> HasEntry(s, q) || q == k {
      if HasEntry(s, q) {
        var b :| b in s.entries && s.entries[b].key == q;
        assert b in s'.entries && s'.entries[b].key == q;
      }
      if HasEntry(s', q) {
        var b :| b in s'.entries && s'.entries[b].key == q;
        assert b == a || (b in s.entries && s.entries[b].key == q);
      }
      assert a in s'.entries && s'.entries[a].key == k;
    }
    forall q ensures Owed(s', q) == Owed(s, q) {}
  }

  lemma EnterInv(s: State, t: nat, id: TxnId, k: Key, m: Mode)
    requires Inv(s) && t < |s.threads| && s.threads[t] == Requesting(id, k, m)
    ensures Inv(LockEnter(s, t, id, k, m))
  {
    FindEntry(s, k);
    match Find(s.buckets[Hash(k)], s.entries, k)
    case Some(a) => GrantInv(s, t, id, k, m, a);
    case None =>
      NewEntryAt(s, t, k);
      GrantInv(WithNewEntry(s, k), t, id, k, m, s.nextAddr);
  }

  lemma {:induction false} SomebodyWaits(threads: seq<Pc>, t: nat, a: Addr)
    requires t < |threads| && WaitsOn(threads[t], a)
    ensures Waiting(threads, a) > 0
    decreases |threads|
  {
    if t > 0 {
      SomebodyWaits(threads[1..], t - 1, a);
    }
  }

  lemma ResumeInv(s: State, t: nat, id: TxnId, k: Key, m: Mode, a: Addr)
    requires Inv(s) && t < |s.threads| && s.threads[t] == Woken(id, k, m, a)
    ensures a in s.entries && s.entries[a].waiters > 0
    ensures Inv(LockResume(s, t, id, k, m, a))
  {
    SomebodyWaits(s.threads, t, a);
    var e := s.entries[a];
    var s1 := s.(entries := s.entries[a := e.(waiters := e.waiters - 1)]);
    ResumeAt(s, s1, t, k, a);
    GrantInv(s1, t, id, k, m, a);
  }

  /** Two lock tables with the same entries for the same records. */
  ghost predicate SameEntries(s: State, s1: State) {
    (forall b :: b in s1.entries <==> b in s.entries) && forall b :: b in s.entries ==> s1.entries[b].key == s.entries[b].key
  }

  lemma SameHasEntry(s: State, s1: State)
    requires SameEntries(s, s1)
    ensures forall q :: HasEntry(s1, q) == HasEntry(s, q)
  {
    forall q ensures HasEntry(s1, q) == HasEntry(s, q) {
      if HasEntry(s, q) {
        var b :| b in s.entries && s.entries[b].key == q;
        assert b in s1.entries && s1.entries[b].key == q;
      }
      if HasEntry(s1, q) {
        var b :| b in s1.entries && s1.entries[b].key == q;
        assert b in s.entries && s.entries[b].key == q;
      }
    }
  }

  lemma SameTable(s: State, s1: State)
    requires TableOk(s) && SameEntries(s, s1) && s1.buckets == s.buckets && s1.nextAddr == s.nextAddr
    ensures TableOk(s1)
  {
    forall h | 0 <= h < |s1.buckets| ensures ListOk(s1, h) {
      assert ListOk(s, h);
    }
    forall a | a in s1.entries ensures Listed(s1, a) {
      assert Listed(s, a);
    }
  }

  lemma SameAccounts(s: State, s1: State)
    requires Accounted(s) && SameEntries(s, s1) && s1.threads == s.threads && s1.txns == s.txns
    requires forall b :: b in s.entries ==> HeldBy(s1.entries[b]) == HeldBy(s.entries[b])
    ensures Accounted(s1)
  {
    SameHasEntry(s, s1);
    forall q ensures Owed(s1, q) == Owed(s, q) {}
  }

  lemma SameSlots(s: State, s1: State)
    requires SlotsOk(s) && s1.txns == s.txns && s1.nextTxn == s.nextTxn
    ensures SlotsOk(s1)
  {
  }

  lemma ResumeEntries(s: State, s1: State, t: nat, a: Addr)
    requires EntriesOk(s) && WaitersOk(s) && t < |s.threads| && s.threads[t].Woken? && s.threads[t].entry == a
    requires a in s.entries && s.entries[a].waiters > 0
    requires s1 == s.(entries := s.entries[a := s.entries[a].(waiters := s.entries[a].waiters - 1)])
    ensures EntriesBut(s1, t, a) && WaitersOk(s1)
  {
  }

  lemma ResumeAt(s: State, s1: State, t: nat, k: Key, a: Addr)
    requires Inv(s) && t < |s.threads| && s.threads[t].Woken? && s.threads[t].entry == a && s.threads[t].key == k
    requires a in s.entries && s.entries[a].waiters > 0
    requires s1 == s.(entries := s.entries[a := s.entries[a].(waiters := s.entries[a].waiters - 1)])
    ensures AtEntry(s1, t, k, a) == true
  {
    SameTable(s, s1);
    SameAccounts(s, s1);
    SameSlots(s, s1);
    ResumeEntries(s, s1, t, a);
  }

  // ---------------------------------------------------------------------------
  // Releasing
  // ---------------------------------------------------------------------------

  ghost function Released(e: Entry): Entry
    requires HeldBy(e) > 0
  {
    if e.exclusive then e.(exclusive := false) else e.(shared := e.shared - 1)
  }

  /** Thread `t` answers for a hold on `k` and no longer does once it is at `pc`. */
  ghost predicate GivesBack(s: State, t: nat, k: Key, pc: Pc) {
    && t < |s.threads| && (s.threads[t].Orphan? || s.threads[t].Releasing?) && (pc.Idle? || pc.Releasing?)
    && forall q :: PcOwes(s.threads[t], q) == PcOwes(pc, q) + (if q == k then 1 else 0)
  }

  /** A release always finds its lock held: nothing is released twice. */
  lemma ReleaseFinds(s: State, t: nat, k: Key, pc: Pc)
    requires Inv(s) && GivesBack(s, t, k, pc)
    ensures Unlock(s, k).1
    ensures var a := Find(s.buckets[Hash(k)], s.entries, k);
            a.Some? && a.value in s.entries && s.entries[a.value].key == k && HeldBy(s.entries[a.value]) > 0
  {
    FindEntry(s, k);
    ThreadOwes(s.threads, t, k);
  }

  lemma ReleaseOwed(s: State, t: nat, k: Key, pc: Pc, a: Addr, s': State)
    requires GivesBack(s, t, k, pc) && s'.threads == Broadcast(s.threads, a)[t := pc] && s'.txns == s.txns
    ensures forall q :: Owed(s, q) == Owed(s', q) + (if q == k then 1 else 0)
    ensures forall b :: Waiting(s'.threads, b) == Waiting(s.threads, b)
  {
    forall q ensures Owed(s, q) == Owed(s', q) + (if q == k then 1 else 0) {
      BroadcastSums(s.threads, a, q, a);
      ThreadSumSet(Broadcast(s.threads, a), t, pc, q);
    }
    forall b ensures Waiting(s'.threads, b) == Waiting(s.threads, b) {
      BroadcastSums(s.threads, a, k, b);
      WaitingSet(Broadcast(s.threads, a), t, pc, b);
    }
  }

  lemma {:induction false} NoneWaiting(threads: seq<Pc>, a: Addr)
    requires Waiting(threads, a) == 0
    ensures forall t :: 0 <= t < |threads| ==> !WaitsOn(threads[t], a)
    decreases |threads|
  {
    if threads != [] {
      NoneWaiting(threads[1..], a);
      assert forall t :: 0 < t < |threads| ==> threads[t] == threads[1..][t - 1];
    }
  }

  lemma ReleaseAccounts(s: State, t: nat, k: Key, pc: Pc, a: Addr, s': State)
    requires TableOk(s) && Accounted(s) && GivesBack(s, t, k, pc)
    requires a in s.entries && s.entries[a].key == k && HeldBy(s.entries[a]) > 0
    requires s'.threads == Broadcast(s.threads, a)[t := pc] && s'.txns == s.txns
    requires s'.entries == s.entries[a := Released(s.entries[a])]
    ensures Accounted(s')
  {
    ReleaseOwed(s, t, k, pc, a, s');
    SameHasEntry(s, s');
    assert HasEntry(s, k);
  }

  lemma ReleaseWaiters(s: State, t: nat, k: Key, pc: Pc, a: Addr, s': State)
    requires WaitersOk(s) && EntriesOk(s) && GivesBack(s, t, k, pc)
    requires a in s.entries && s.entries[a].key == k && HeldBy(s.entries[a]) > 0 && InUse(Released(s.entries[a]))
    requires s'.threads == Broadcast(s.threads, a)[t := pc] && s'.txns == s.txns
    requires s'.entries == s.entries[a := Released(s.entries[a])]
    ensures WaitersOk(s') && EntriesOk(s')
  {
    ReleaseOwed(s, t, k, pc, a, s');
    assert forall u :: 0 <= u < |s'.threads| ==> s'.threads[u] == if u == t then pc else Broadcast(s.threads, a)[u];
  }

  /** The lock is released and stays in the table for its other holders or its waiters, all of whom are woken. */
  lemma ReleaseKeeps(s: State, t: nat, k: Key, pc: Pc, a: Addr, s': State)
    requires Inv(s) && GivesBack(s, t, k, pc) && a in s.entries && s.entries[a].key == k && HeldBy(s.entries[a]) > 0
    requires InUse(Released(s.entries[a]))
    requires s' == s.(threads := Broadcast(s.threads, a)[t := pc], entries := s.entries[a := Released(s.entries[a])])
    ensures Inv(s')
  {
    ReleaseAccounts(s, t, k, pc, a, s');
    ReleaseWaiters(s, t, k, pc, a, s');
    SameTable(s, s');
  }

  lemma {:induction false} WithoutIs(list: seq<Addr>, a: Addr)
    requires Distinct(list)
    ensures Distinct(Without(list, a)) && forall b :: b in Without(list, a) <==> b in list && b != a
    decreases |list|
  {
    if list != [] {
      var rest := list[1..];
      assert Distinct(rest) by {
        assert forall i :: 0 <= i < |rest| ==> rest[i] == list[i + 1];
      }
      assert list[0] !in rest;
      WithoutIs(rest, a);
      assert list == [list[0]] + rest;
    }
  }

  lemma DropHas(s: State, a: Addr, s': State)
    requires TableOk(s) && a in s.entries && s'.entries == s.entries - {a}
    ensures forall q :: HasEntry(s', q) <==> HasEntry(s, q) && q != s.entries[a].key
  {
    forall q ensures HasEntry(s', q) <==> HasEntry(s, q) && q != s.entries[a].key {
      if HasEntry(s, q) && q != s.entries[a].key {
        var b :| b in s.entries && s.entries[b].key == q;
        assert b in s'.entries && s'.entries[b].key == q;
      }
      if HasEntry(s', q) {
        var b :| b in s'.entries && s'.entries[b].key == q;
        assert b in s.entries && s.entries[b].key == q && b != a;
      }
    }
  }

  lemma DropTable(s: State, a: Addr, s': State)
    requires TableOk(s) && a in s.entries && s'.nextAddr == s.nextAddr && s'.entries == s.entries - {a}
    requires var h := Hash(s.entries[a].key); s'.buckets == s.buckets[h := Without(s.buckets[h], a)]
    ensures TableOk(s')
  {
    var g := Hash(s.entries[a].key);
    assert ListOk(s, g);
    WithoutIs(s.buckets[g], a);
    forall h | 0 <= h < |s'.buckets| ensures ListOk(s', h) {
      assert ListOk(s, h);
    }
    forall b | b in s'.entries ensures Listed(s', b) {
      assert Listed(s, b);
    }
  }

  lemma DropAccounts(s: State, t: nat, k: Key, pc: Pc, a: Addr, s': State)
    requires TableOk(s) && Accounted(s) && GivesBack(s, t, k, pc)
    requires a in s.entries && s.entries[a].key == k && HeldBy(s.entries[a]) == 1
    requires s'.threads == Broadcast(s.threads, a)[t := pc] && s'.txns == s.txns && s'.entries == s.entries - {a}
    ensures Accounted(s')
  {
    ReleaseOwed(s, t, k, pc, a, s');
    DropHas(s, a, s');
    assert HasEntry(s, k);
  }

  lemma DropEntries(s: State, t: nat, k: Key, pc: Pc, a: Addr, s': State)
    requires EntriesOk(s) && GivesBack(s, t, k, pc)
    requires s'.threads == Broadcast(s.threads, a)[t := pc] && s'.txns == s.txns && s'.entries == s.entries - {a}
    ensures EntriesOk(s')
  {
    ReleaseOwed(s, t, k, pc, a, s');
  }

  lemma DropWaiters(s: State, t: nat, k: Key, pc: Pc, a: Addr, s': State)
    requires WaitersOk(s) && GivesBack(s, t, k, pc) && Waiting(s.threads, a) == 0
    requires s'.threads == Broadcast(s.threads, a)[t := pc] && s'.entries == s.entries - {a}
    ensures WaitersOk(s')
  {
    NoneWaiting(s.threads, a);
    assert forall u :: 0 <= u < |s'.threads| ==> s'.threads[u] == if u == t then pc else s.threads[u];
  }

  /** The last hold goes and nobody waits: the entry is freed, and no thread can still be looking at it. */
  lemma ReleaseDrops(s: State, t: nat, k: Key, pc: Pc, a: Addr, s': State)
    requires Inv(s) && GivesBack(s, t, k, pc) && a in s.entries && s.entries[a].key == k && HeldBy(s.entries[a]) > 0
    requires !InUse(Released(s.entries[a]))
    requires s' == s.(threads := Broadcast(s.threads, a)[t := pc], entries := s.entries - {a},
                      buckets := s.buckets[Hash(k) := Without(s.buckets[Hash(k)], a)])
    ensures Inv(s')
  {
    DropTable(s, a, s');
    DropAccounts(s, t, k, pc, a, s');
    DropEntries(s, t, k, pc, a, s');
    DropWaiters(s, t, k, pc, a, s');
  }

  lemma ReleaseInv(s: State, t: nat, k: Key, pc: Pc)
    requires Inv(s) && GivesBack(s, t, k, pc)
    ensures Inv(Go(Unlock(s, k).0, t, pc))
  {
    ReleaseFinds(s, t, k, pc);
    var a := Find(s.buckets[Hash(k)], s.entries, k).value;
    var s' := Go(Unlock(s, k).0, t, pc);
    if InUse(Released(s.entries[a])) {
      ReleaseKeeps(s, t, k, pc, a, s');
    } else {
      ReleaseDrops(s, t, k, pc, a, s');
    }
  }

  // ---------------------------------------------------------------------------
  // Every move
  // ---------------------------------------------------------------------------

  lemma ProceedInv(s: State, t: nat)
    requires Inv(s) && CanMove(s, Proceeds(t))
    ensures Inv(Proceed(s, t)) == true
  {
    match s.threads[t]
    case Requesting(id, k, m) => EnterInv(s, t, id, k, m);
    case Woken(id, k, m, a) => ResumeInv(s, t, id, k, m, a);
    case Acquired(id, k) => RegisterInv(s, t);
    case Orphan(k) => ReleaseInv(s, t, k, Idle(Refused));
    case Releasing(rest) =>
      if rest == [] {
        ReleasedAll(s, t);
      } else {
        ReleaseInv(s, t, rest[0], Releasing(rest[1..]));
      }
  }

  lemma ReleasedAll(s: State, t: nat)
    requires Inv(s) && t < |s.threads| && s.threads[t] == Releasing([])
    ensures Inv(Go(s, t, Idle(Done)))
  {
    var s' := Go(s, t, Idle(Done));
    forall q ensures Owed(s', q) == Owed(s, q) {
      ThreadSumSet(s.threads, t, Idle(Done), q);
    }
    SectionOk(s, s', t, Idle(Done));
  }

  /** Every section of every thread, in any order, keeps the lock table accounted for. */
  lemma MoveInv(s: State, m: Move)
    requires Inv(s) && CanMove(s, m)
    ensures Inv(Moved(s, m)) == true
  {
    match m
    case Begins(t) => BeginInv(s, t);
    case Locks(t, id, k, mode) => CheckInv(s, t, id, k, mode);
    case Finishes(t, id) => FinishInv(s, t, id);
    case Wakes(t) => WakeInv(s, t);
    case Proceeds(t) => ProceedInv(s, t);
  }

  lemma {:induction false} IdleOwesNothing(n: nat, k: Key, a: Addr)
    ensures ThreadSum(seq(n, _ => Idle(Done)), k) == 0 && Waiting(seq(n, _ => Idle(Done)), a) == 0
    decreases n
  {
    if n > 0 {
      assert seq(n, _ => Idle(Done))[1..] == seq(n - 1, _ => Idle(Done));
      IdleOwesNothing(n - 1, k, a);
    }
  }

  lemma {:induction false} FreeOwesNothing(n: nat, k: Key)
    ensures SlotSum(seq(n, _ => Slot(0, false, [])), k) == 0
    decreases n
  {
    if n > 0 {
      assert seq(n, _ => Slot(0, false, []))[1..] == seq(n - 1, _ => Slot(0, false, []));
      FreeOwesNothing(n - 1, k);
    }
  }

  lemma InitialInv(n: nat)
    ensures Inv(Initial(n))
  {
    var s := Initial(n);
    forall k ensures Owed(s, k) == 0 {
      IdleOwesNothing(n, k, 0);
      FreeOwesNothing(MAX_ACTIVE_TXNS, k);
    }
  }

  // ---------------------------------------------------------------------------
  // What the invariant is for
  // ---------------------------------------------------------------------------

  ghost predicate ExclusivelyHeld(s: State, k: Key) {
    exists a :: a in s.entries && s.entries[a].key == k && s.entries[a].exclusive
  }

  /** Exclusive means alone: one hold, and so no two transactions or threads answer for the record. */
  lemma ExclusiveIsAlone(s: State, k: Key)
    requires Inv(s) && ExclusivelyHeld(s, k)
    ensures Owed(s, k) == 1
    ensures forall i, j :: 0 <= i < j < |s.txns| && k in s.txns[i].locks ==> k !in s.txns[j].locks
    ensures forall i, t :: 0 <= i < |s.txns| && k in s.txns[i].locks && 0 <= t < |s.threads| ==> PcOwes(s.threads[t], k) == 0
    ensures forall t, u :: 0 <= t < u < |s.threads| && PcOwes(s.threads[t], k) > 0 ==> PcOwes(s.threads[u], k) == 0
  {
    forall i, j | 0 <= i < j < |s.txns| && k in s.txns[i].locks ensures k !in s.txns[j].locks {
      TwoSlotsOwe(s.txns, i, j, k);
      CountIn(s.txns[i].locks, k);
      CountIn(s.txns[j].locks, k);
    }
    forall i, t | 0 <= i < |s.txns| && k in s.txns[i].locks && 0 <= t < |s.threads| ensures PcOwes(s.threads[t], k) == 0 {
      SlotOwes(s.txns, i, k);
      CountIn(s.txns[i].locks, k);
      ThreadOwes(s.threads, t, k);
    }
    forall t, u | 0 <= t < u < |s.threads| && PcOwes(s.threads[t], k) > 0 ensures PcOwes(s.threads[u], k) == 0 {
      TwoThreadsOwe(s.threads, t, u, k);
    }
  }

  /** Nobody sleeps on a record that nobody holds. */
  lemma SleepersWaitForSomeone(s: State, t: nat)
    requires Inv(s) && t < |s.threads| && s.threads[t].Asleep?
    ensures Owed(s, s.threads[t].key) > 0
  {
  }

  /** When every thread is idle and every transaction has ended, the lock table is empty: no lock has leaked. */
  lemma NothingLeaks(s: State)
    requires Inv(s) && (forall t :: 0 <= t < |s.threads| ==> s.threads[t].Idle?)
    requires forall i :: 0 <= i < |s.txns| ==> !s.txns[i].active
    ensures s.entries == map[] && forall h :: 0 <= h < |s.buckets| ==> s.buckets[h] == []
  {
    forall a ensures a !in s.entries {
      if a in s.entries {
        NoHolds(s, s.entries[a].key);
        NobodyWaits(s.threads, a);
      }
    }
    forall h | 0 <= h < |s.buckets| ensures s.buckets[h] == [] {
      assert ListOk(s, h);
      FirstIn(s.buckets[h]);
    }
  }

  lemma FirstIn(list: seq<Addr>)
    ensures list != [] ==> list[0] in list
  {
  }

  lemma NoHolds(s: State, k: Key)
    requires (forall t :: 0 <= t < |s.threads| ==> s.threads[t].Idle?)
    requires forall i :: 0 <= i < |s.txns| ==> s.txns[i].locks == []
    ensures Owed(s, k) == 0
  {
    ThreadsOweNothing(s.threads, k);
    SlotsOweNothing(s.txns, k);
  }

  lemma {:induction false} ThreadsOweNothing(threads: seq<Pc>, k: Key)
    requires forall t :: 0 <= t < |threads| ==> threads[t].Idle?
    ensures ThreadSum(threads, k) == 0
    decreases |threads|
  {
    if threads != [] {
      ThreadsOweNothing(threads[1..], k);
    }
  }

  lemma {:induction false} SlotsOweNothing(txns: seq<Slot>, k: Key)
    requires forall i :: 0 <= i < |txns| ==> txns[i].locks == []
    ensures SlotSum(txns, k) == 0
    decreases |txns|
  {
    if txns != [] {
      SlotsOweNothing(txns[1..], k);
    }
  }

  // ---------------------------------------------------------------------------
  // Users that only ask for exclusive locks
  // ---------------------------------------------------------------------------

  ghost predicate AllExclusive(s: State) {
    && (forall a :: a in s.entries ==> s.entries[a].shared == 0)
    && (forall t :: 0 <= t < |s.threads| ==>
          (s.threads[t].Requesting? || s.threads[t].Asleep? || s.threads[t].Woken? ==> s.threads[t].mode == Exclusive))
  }

  ghost predicate ExclusiveMove(m: Move) {
    m.Locks? ==> m.mode == Exclusive
  }

  lemma UnlockStaysExclusive(s: State, t: nat, k: Key, pc: Pc)
    requires Inv(s) && AllExclusive(s) && GivesBack(s, t, k, pc)
    ensures AllExclusive(Go(Unlock(s, k).0, t, pc))
  {
    ReleaseFinds(s, t, k, pc);
  }

  lemma EnterStaysExclusive(s: State, t: nat)
    requires Inv(s) && AllExclusive(s) && t < |s.threads| && (s.threads[t].Requesting? || s.threads[t].Woken?)
    ensures AllExclusive(Proceed(s, t))
  {
    FindEntry(s, s.threads[t].key);
  }

  lemma StaysExclusive(s: State, m: Move)
    requires Inv(s) && AllExclusive(s) && CanMove(s, m) && ExclusiveMove(m)
    ensures AllExclusive(Moved(s, m)) == true
  {
    if m.Proceeds? {
      match s.threads[m.t]
      case Orphan(k) => UnlockStaysExclusive(s, m.t, k, Idle(Refused));
      case Releasing(rest) =>
        if rest != [] {
          UnlockStaysExclusive(s, m.t, rest[0], Releasing(rest[1..]));
        }
      case Acquired(_, _) =>
      case _ => EnterStaysExclusive(s, m.t);
    }
  }

  /** With exclusive requests only, at most one hold is out on any record: the lock table is a map to single owners. */
  lemma OneOwner(s: State, k: Key)
    requires Inv(s) && AllExclusive(s)
    ensures Owed(s, k) <= 1 && (Owed(s, k) == 1 <==> ExclusivelyHeld(s, k))
  {
    if HasEntry(s, k) {
      var a :| a in s.entries && s.entries[a].key == k;
      assert HeldBy(s.entries[a]) == Owed(s, k);
      assert ExclusivelyHeld(s, k) ==> s.entries[a].exclusive;
    }
  }

  ghost predicate Grants(s: State, m: Move, k: Key)
    requires CanMove(s, m) && |s.buckets| == LOCK_TABLE_SIZE && m.t < |Moved(s, m).threads|
  {
    m.Proceeds? && (s.threads[m.t].Requesting? || s.threads[m.t].Woken?) && s.threads[m.t].key == k
    && Moved(s, m).threads[m.t].Acquired?
  }

  /** A record is granted only when nobody holds it, so lock_mgr_lock acts as one atomic acquisition. */
  lemma GrantsFree(s: State, m: Move, k: Key)
    requires Inv(s) && AllExclusive(s) && CanMove(s, m) && ExclusiveMove(m) && m.t < |Moved(s, m).threads| && Grants(s, m, k)
    ensures Owed(s, k) == 0
  {
    var t := m.t;
    if s.threads[t].Requesting? {
      FindEntry(s, k);
    }
    OneOwner(s, k);
  }
}
