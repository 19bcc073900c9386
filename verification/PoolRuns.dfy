// Runs of pool operations: whatever a disciplined client does, it sees plain memory; the LRU list is the order of last
// fetches; and a client that pins fewer pages than there are frames is never refused.
module PoolRuns {
  import opened PoolMap
  import opened PoolList
  import opened BufferPool
  import opened Bytes
  import opened Common

  // ---------------------------------------------------------------------------
  // A client writes into a page it has pinned
  // ---------------------------------------------------------------------------

  ghost function Written(p: Pool, k: PageKey, page: Page): Pool
    requires Ok(p) && k in p.index
  {
    p.(bufs := p.bufs[p.index[k] := page])
  }

  lemma WriteOk(p: Pool, k: PageKey, page: Page)
    requires Ok(p) && PinOf(p, k) > 0 && |page| == PAGE_SIZE
    ensures Ok(Written(p, k, page)) && Recency(Written(p, k, page)) == Recency(p)
    ensures Logical(Written(p, k, page), k) == page
    ensures forall x :: x != k ==> Logical(Written(p, k, page), x) == Logical(p, x)
    ensures forall x :: PinOf(Written(p, k, page), x) == PinOf(p, x)
  {
    var q := Written(p, k, page);
    forall j | 0 <= j < |q.fs| ensures FrameOk(q, j) == true {
      At(p, j);
    }
    assert Ok(q);
    forall x | x != k && x in p.index ensures p.index[x] != p.index[k] {
      assert p.fs[p.index[x]].key == x;
    }
  }

  // ---------------------------------------------------------------------------
  // Plain memory and disciplined clients
  // ---------------------------------------------------------------------------

  datatype PoolOp =
    | Fetches(key: PageKey)
    | Writes(key: PageKey, page: Page)
    | Marks(key: PageKey)
    | Unpins(key: PageKey)
    | Flushes(key: PageKey)
    | FlushesAll

  ghost function Seen(p: Pool): imap<PageKey, Page>
    requires Ok(p)
  {
    imap k: PageKey :: Logical(p, k)
  }

  /** The same operation on plain memory. */
  ghost function PlainStep(m: imap<PageKey, Page>, op: PoolOp): (r: imap<PageKey, Page>)
    ensures forall k :: k in m ==> k in r
  {
    if op.Writes? then m[op.key := op.page] else m
  }

  ghost function PlainRun(m: imap<PageKey, Page>, ops: seq<PoolOp>): (r: imap<PageKey, Page>)
    ensures forall k :: k in m ==> k in r
  {
    if ops == [] then m else PlainStep(PlainRun(m, ops[..|ops| - 1]), ops[|ops| - 1])
  }

  /** The pages a client has pinned, how often, and those it has written since it last marked them dirty. */
  datatype Client = Client(pins: map<PageKey, nat>, unsaved: set<PageKey>)

  function PinsOf(c: Client, k: PageKey): nat {
    if k in c.pins then c.pins[k] else 0
  }

  ghost function PinnedBy(c: Client): set<PageKey> {
    set k | k in c.pins && c.pins[k] > 0
  }

  /** Fetch while a frame is to be had, write only into pinned pages, mark a page dirty before the last unpin. */
  ghost predicate Disciplined(c: Client, op: PoolOp, frames: nat) {
    match op
    case Fetches(k) => k.fd >= 0 && (PinsOf(c, k) > 0 || |PinnedBy(c)| < frames)
    case Writes(k, page) => PinsOf(c, k) > 0 && |page| == PAGE_SIZE
    case Unpins(k) => PinsOf(c, k) == 1 ==> k !in c.unsaved
    case _ => true
  }

  ghost function Client'(c: Client, op: PoolOp): Client {
    match op
    case Fetches(k) => c.(pins := c.pins[k := PinsOf(c, k) + 1])
    case Writes(k, _) => c.(unsaved := c.unsaved + {k})
    case Marks(k) => c.(unsaved := c.unsaved - {k})
    case Unpins(k) => if PinsOf(c, k) > 0 then c.(pins := c.pins[k := PinsOf(c, k) - 1]) else c
    case _ => c
  }

  // ---------------------------------------------------------------------------
  // Least recently fetched
  // ---------------------------------------------------------------------------

  /** `ks` lists pages by the time of their last fetch, latest first. */
  ghost predicate ByTime(ks: seq<PageKey>, times: map<PageKey, nat>) {
    && (forall i :: 0 <= i < |ks| ==> ks[i] in times)
    && forall i, j :: 0 <= i < j < |ks| ==> times[ks[i]] > times[ks[j]]
  }

  /** A fetch at a later time leaves the list in order of last fetches. */
  lemma FetchKeepsTime(p: Pool, k: PageKey, rec: seq<PageKey>, times: map<PageKey, nat>, now: nat)
    requires Ok(p) && ByTime(Recency(p), times) && Refetched(p, k, rec)
    requires forall x :: x in times ==> times[x] < now
    ensures ByTime(rec, times[k := now])
  {
    var before, rest := Recency(p), Recency(p);
    if k in p.index {
      var x :| 0 <= x < |before| && before[x] == k && rec == [k] + CutKeys(before, x);
      rest := CutKeys(before, x);
      CutByTime(before, x, times);
    } else {
      NotCached(p, k);
      if forall i :: 0 <= i < |p.fs| ==> p.fs[i].valid {
        var x :| 0 <= x < |before| && IsVictim(p, x) && rec == [k] + CutKeys(before, x);
        rest := CutKeys(before, x);
        CutByTime(before, x, times);
      }
    }
    ConsByTime(rest, k, times, now);
  }

  lemma NotCached(p: Pool, k: PageKey)
    requires Ok(p) && k !in p.index
    ensures k !in Recency(p)
  {
    forall i | 0 <= i < |p.order| ensures Recency(p)[i] != k {
      OrderFrames(p, i);
    }
  }

  lemma ConsByTime(rest: seq<PageKey>, k: PageKey, times: map<PageKey, nat>, now: nat)
    requires ByTime(rest, times) && k !in rest && forall x :: x in times ==> times[x] < now
    ensures ByTime([k] + rest, times[k := now])
  {
    var r := [k] + rest;
    forall i | 0 < i < |r| ensures r[i] == rest[i - 1] && r[i] != k {
      assert rest[i - 1] in rest;
    }
  }

  lemma CutByTime(ks: seq<PageKey>, x: nat, times: map<PageKey, nat>)
    requires ByTime(ks, times) && x < |ks|
    ensures ByTime(CutKeys(ks, x), times) && ks[x] !in CutKeys(ks, x)
    ensures forall y :: y in CutKeys(ks, x) ==> y in ks
  {
    var r := CutKeys(ks, x);
    assert forall i :: 0 <= i < |r| ==> r[i] == ks[if i < x then i else i + 1];
  }

  /** The victim is the unpinned page whose last fetch is longest ago. */
  lemma VictimIsOldest(p: Pool, x: nat, times: map<PageKey, nat>, k: PageKey)
    requires Ok(p) && ByTime(Recency(p), times) && IsVictim(p, x) && k in p.index && PinOf(p, k) == 0
    ensures k in times && Recency(p)[x] in times && times[Recency(p)[x]] <= times[k]
  {
    var i := p.index[k];
    At(p, i);
    var y :| 0 <= y < |p.order| && p.order[y] == i;
    assert Recency(p)[y] == k && y <= x;
  }

  // ---------------------------------------------------------------------------
  // A frame is always to be had
  // ---------------------------------------------------------------------------

  ghost function PinnedKeys(p: Pool): set<PageKey>
    requires Ok(p)
  {
    set k | k in p.index && PinOf(p, k) > 0
  }

  ghost function PinnedBelow(p: Pool, n: nat): set<PageKey>
    requires Ok(p)
  {
    set k | k in PinnedKeys(p) && p.index[k] < n
  }

  lemma PinnedNext(p: Pool, n: nat)
    requires Ok(p) && n < |p.fs| && p.fs[n].valid && p.fs[n].pin > 0
    ensures p.fs[n].key in PinnedBelow(p, n + 1) && p.fs[n].key !in PinnedBelow(p, n)
    ensures PinnedBelow(p, n) <= PinnedBelow(p, n + 1)
  {
    At(p, n);
  }

  lemma {:induction false} PinnedFrames(p: Pool, n: nat)
    requires Ok(p) && n <= |p.fs| && forall i :: 0 <= i < n ==> p.fs[i].valid && p.fs[i].pin > 0
    ensures n <= |PinnedBelow(p, n)|
    decreases n
  {
    if n > 0 {
      PinnedFrames(p, n - 1);
      PinnedNext(p, n - 1);
      var less, key := PinnedBelow(p, n - 1), p.fs[n - 1].key;
      SubsetSize(less + {key}, PinnedBelow(p, n));
    }
  }

  /** With fewer pages pinned than there are frames, a fetch finds a frame. */
  lemma NeverOut(p: Pool)
    requires Ok(p) && |PinnedKeys(p)| < |p.fs|
    ensures !AllPinned(p)
  {
    if AllPinned(p) {
      PinnedFrames(p, |p.fs|);
      SubsetSize(PinnedBelow(p, |p.fs|), PinnedKeys(p));
    }
  }

  // ---------------------------------------------------------------------------
  // Running operations on a real pool
  // ---------------------------------------------------------------------------

  /** The pool's pin counts are the client's, and every page is dirty or on disk unless the client has yet to mark it. */
  ghost predicate Follows(p: Pool, c: Client)
    requires Ok(p)
  {
    && (forall k :: PinOf(p, k) == PinsOf(c, k))
    && (forall k :: k !in c.unsaved ==> Saved(p, k))
  }

  /** The buffers handed out for pinned pages are still theirs. */
  ghost predicate Held(index: map<PageKey, nat>, bufs: seq<array<Byte>>, c: Client, held: map<PageKey, array<Byte>>) {
    forall k :: PinsOf(c, k) > 0 ==> HeldAt(index, bufs, held, k) == true
  }

  ghost predicate HeldAt(index: map<PageKey, nat>, bufs: seq<array<Byte>>, held: map<PageKey, array<Byte>>, k: PageKey) {
    k in held && k in index && index[k] < |bufs| && held[k] == bufs[index[k]]
  }

  ghost predicate Tracks(pool: BufferPool, c: Client, held: map<PageKey, array<Byte>>)
    reads pool, pool.Repr()
  {
    pool.Valid() && Follows(pool.State(), c) == true && Held(pool.index, pool.bufs, c, held) == true
  }

  /** Pinned pages stay in their frames, so the buffers stay theirs. */
  lemma HeldFetch(index: map<PageKey, nat>, index': map<PageKey, nat>, bufs: seq<array<Byte>>, c: Client,
                  held: map<PageKey, array<Byte>>, k: PageKey, buf: array<Byte>)
    requires Held(index, bufs, c, held) && k in index' && index'[k] < |bufs| && buf == bufs[index'[k]]
    requires forall x :: PinsOf(c, x) > 0 ==> x in index && x in index' && index'[x] == index[x]
    ensures Held(index', bufs, Client'(c, Fetches(k)), held[k := buf]) == true
  {
    forall x | PinsOf(Client'(c, Fetches(k)), x) > 0 ensures HeldAt(index', bufs, held[k := buf], x) == true {
      if x != k {
        assert PinsOf(c, x) > 0 && HeldAt(index, bufs, held, x) == true;
      }
    }
  }

  lemma HeldStill(index: map<PageKey, nat>, bufs: seq<array<Byte>>, c: Client, held: map<PageKey, array<Byte>>, op: PoolOp)
    requires Held(index, bufs, c, held) && !op.Fetches?
    ensures Held(index, bufs, Client'(c, op), held) == true
  {
    forall x | PinsOf(Client'(c, op), x) > 0 ensures HeldAt(index, bufs, held, x) == true {
      assert PinsOf(c, x) > 0;
    }
  }

  lemma PinnedAlike(p: Pool, c: Client)
    requires Ok(p) && Follows(p, c)
    ensures PinnedKeys(p) == PinnedBy(c)
  {
    forall k ensures k in PinnedKeys(p) <==> k in PinnedBy(c) {
      assert PinOf(p, k) == PinsOf(c, k);
    }
  }

  lemma FetchFollows(p: Pool, c: Client, k: PageKey, q: Pool)
    requires Ok(p) && Follows(p, c) && WasFetched(p, k, q)
    ensures Follows(q, Client'(c, Fetches(k))) == true && Seen(q) == Seen(p)
    ensures forall x :: PinsOf(c, x) > 0 ==> x in p.index && x in q.index && q.index[x] == p.index[x]
  {
    forall x ensures PinOf(q, x) == PinsOf(Client'(c, Fetches(k)), x) {
      assert PinOf(p, x) == PinsOf(c, x);
    }
    forall x | PinsOf(c, x) > 0 ensures x in p.index && x in q.index && q.index[x] == p.index[x] {
      assert PinOf(p, x) == PinsOf(c, x);
    }
  }

  method DoFetch(pool: BufferPool, k: PageKey, held: map<PageKey, array<Byte>>, ghost c: Client)
    returns (page: Page, held': map<PageKey, array<Byte>>)
    requires Tracks(pool, c, held) == true && Disciplined(c, Fetches(k), pool.frames.Length)
    modifies pool.Repr()
    ensures Tracks(pool, Client'(c, Fetches(k)), held') == true && pool.Repr() == old(pool.Repr())
    ensures page == Logical(old(pool.State()), k) && Seen(pool.State()) == Seen(old(pool.State()))
    ensures Refetched(old(pool.State()), k, Recency(pool.State()))
  {
    ghost var p := pool.State();
    PinnedAlike(p, c);
    assert PinOf(p, k) == PinsOf(c, k);
    if PinsOf(c, k) == 0 {
      NeverOut(p);
    }
    var buf := pool.Fetch(k);
    FetchFollows(p, c, k, pool.State());
    HeldFetch(p.index, pool.index, pool.bufs, c, held, k, buf);
    page, held' := buf[..], held[k := buf];
  }

  lemma WriteFollows(p: Pool, c: Client, k: PageKey, page: Page)
    requires Ok(p) && Follows(p, c) && Disciplined(c, Writes(k, page), |p.fs|)
    ensures k in p.index && p.index[k] < |p.bufs|
    ensures Ok(Written(p, k, page)) && Follows(Written(p, k, page), Client'(c, Writes(k, page))) == true
    ensures Seen(Written(p, k, page)) == PlainStep(Seen(p), Writes(k, page)) && Recency(Written(p, k, page)) == Recency(p)
  {
    assert PinOf(p, k) == PinsOf(c, k);
    WriteOk(p, k, page);
    var q, c' := Written(p, k, page), Client'(c, Writes(k, page));
    forall x | x !in c'.unsaved ensures Saved(q, x) {
      assert x !in c.unsaved && Saved(p, x);
      if x in p.index {
        assert p.fs[p.index[x]].key == x;
      }
    }
    forall x ensures PinOf(q, x) == PinsOf(c', x) {
      assert PinOf(p, x) == PinsOf(c, x);
    }
  }

  /** The client overwrites a page byte by byte. */
  method Fill(buf: array<Byte>, page: Page)
    requires buf.Length == |page|
    modifies buf
    ensures buf[..] == page
  {
    var i := 0;
    while i < |page|
      invariant i <= |page| && forall j :: 0 <= j < i ==> buf[j] == page[j]
    {
      buf[i] := page[i];
      i := i + 1;
    }
  }

  method DoWrite(pool: BufferPool, k: PageKey, page: Page, held: map<PageKey, array<Byte>>, ghost c: Client)
    requires Tracks(pool, c, held) == true && Disciplined(c, Writes(k, page), pool.frames.Length)
    modifies pool.Repr()
    ensures Tracks(pool, Client'(c, Writes(k, page)), held) == true && pool.Repr() == old(pool.Repr())
    ensures Seen(pool.State()) == PlainStep(Seen(old(pool.State())), Writes(k, page)) && Recency(pool.State()) == Recency(old(pool.State()))
  {
    ghost var p := pool.State();
    HeldStill(pool.index, pool.bufs, c, held, Writes(k, page));
    WriteFollows(p, c, k, page);
    assert HeldAt(pool.index, pool.bufs, held, k) == true;
    Fill(held[k], page);
    assert pool.State() == Written(p, k, page);
  }

  lemma SameFollows(p: Pool, c: Client, q: Pool, op: PoolOp)
    requires Ok(p) && Ok(q) && Follows(p, c) && SameCache(p, q) && (op.Marks? || op.Flushes? || op.FlushesAll?)
    requires forall x :: PinOf(q, x) == PinOf(p, x)
    requires forall x :: Saved(p, x) ==> Saved(q, x)
    requires op.Marks? ==> Saved(q, op.key)
    ensures Follows(q, Client'(c, op)) == true && Seen(q) == PlainStep(Seen(p), op)
  {
    forall x ensures PinOf(q, x) == PinsOf(Client'(c, op), x) {
      assert PinOf(p, x) == PinsOf(c, x);
    }
  }

  method DoMark(pool: BufferPool, k: PageKey, held: map<PageKey, array<Byte>>, ghost c: Client)
    requires Tracks(pool, c, held) == true
    modifies pool.Repr()
    ensures Tracks(pool, Client'(c, Marks(k)), held) == true && pool.Repr() == old(pool.Repr())
    ensures Seen(pool.State()) == Seen(old(pool.State())) && Recency(pool.State()) == Recency(old(pool.State()))
  {
    ghost var p := pool.State();
    HeldStill(pool.index, pool.bufs, c, held, Marks(k));
    pool.MarkDirty(k);
    SameFollows(p, c, pool.State(), Marks(k));
  }

  lemma UnpinFollows(p: Pool, c: Client, k: PageKey, q: Pool)
    requires Ok(p) && Ok(q) && Follows(p, c) && SameCache(p, q)
    requires PinOf(q, k) == if PinOf(p, k) > 0 then PinOf(p, k) - 1 else 0
    requires forall x :: x != k ==> PinOf(q, x) == PinOf(p, x)
    requires forall x :: Saved(p, x) ==> Saved(q, x)
    ensures Follows(q, Client'(c, Unpins(k))) == true && Seen(q) == Seen(p)
    ensures forall x :: PinsOf(Client'(c, Unpins(k)), x) > 0 ==> PinsOf(c, x) > 0
  {
    forall x ensures PinOf(q, x) == PinsOf(Client'(c, Unpins(k)), x) {
      assert PinOf(p, x) == PinsOf(c, x);
    }
  }

  method DoUnpin(pool: BufferPool, k: PageKey, held: map<PageKey, array<Byte>>, ghost c: Client)
    requires Tracks(pool, c, held) == true && Disciplined(c, Unpins(k), pool.frames.Length)
    modifies pool.Repr()
    ensures Tracks(pool, Client'(c, Unpins(k)), held) == true && pool.Repr() == old(pool.Repr())
    ensures Seen(pool.State()) == Seen(old(pool.State())) && Recency(pool.State()) == Recency(old(pool.State()))
  {
    ghost var p := pool.State();
    HeldStill(pool.index, pool.bufs, c, held, Unpins(k));
    assert PinOf(p, k) == PinsOf(c, k);
    pool.Unpin(k);
    UnpinFollows(p, c, k, pool.State());
  }

  method DoFlush(pool: BufferPool, k: PageKey, held: map<PageKey, array<Byte>>, ghost c: Client)
    requires Tracks(pool, c, held) == true
    modifies pool.Repr()
    ensures Tracks(pool, c, held) == true && pool.Repr() == old(pool.Repr())
    ensures Seen(pool.State()) == Seen(old(pool.State())) && Recency(pool.State()) == Recency(old(pool.State()))
  {
    ghost var p := pool.State();
    var _ := pool.FlushPage(k);
    SameFollows(p, c, pool.State(), Flushes(k));
  }

  method DoFlushAll(pool: BufferPool, held: map<PageKey, array<Byte>>, ghost c: Client)
    requires Tracks(pool, c, held) == true
    modifies pool.Repr()
    ensures Tracks(pool, c, held) == true && pool.Repr() == old(pool.Repr())
    ensures Seen(pool.State()) == Seen(old(pool.State())) && Recency(pool.State()) == Recency(old(pool.State()))
  {
    ghost var p := pool.State();
    pool.FlushAll();
    SameFollows(p, c, pool.State(), FlushesAll);
  }

  /** When each page was last fetched, counting operations from `now`. */
  ghost function LastFetches(times: map<PageKey, nat>, now: nat, ops: seq<PoolOp>): map<PageKey, nat> {
    if ops == [] then times else
      var n := |ops| - 1;
      var before := LastFetches(times, now, ops[..n]);
      if ops[n].Fetches? then before[ops[n].key := now + n] else before
  }

  ghost predicate TimesBelow(times: map<PageKey, nat>, now: nat) {
    forall k :: k in times ==> times[k] < now
  }

  lemma {:induction false} LastFetchesBelow(times: map<PageKey, nat>, now: nat, ops: seq<PoolOp>)
    requires TimesBelow(times, now)
    ensures TimesBelow(LastFetches(times, now, ops), now + |ops|)
    decreases |ops|
  {
    if ops != [] {
      LastFetchesBelow(times, now, ops[..|ops| - 1]);
    }
  }

  /** One operation of the run. */
  method DoOp(pool: BufferPool, op: PoolOp, held: map<PageKey, array<Byte>>, ghost c: Client, ghost times: map<PageKey, nat>, ghost now: nat)
    returns (reply: Option<Page>, held': map<PageKey, array<Byte>>)
    requires Tracks(pool, c, held) == true && Disciplined(c, op, pool.frames.Length)
    requires ByTime(Recency(pool.State()), times) == true && TimesBelow(times, now)
    modifies pool.Repr()
    ensures Tracks(pool, Client'(c, op), held') == true && pool.Repr() == old(pool.Repr())
    ensures Seen(pool.State()) == PlainStep(Seen(old(pool.State())), op)
    ensures reply == if op.Fetches? then Some(Seen(old(pool.State()))[op.key]) else None
    ensures ByTime(Recency(pool.State()), if op.Fetches? then times[op.key := now] else times) == true
  {
    ghost var p := pool.State();
    reply, held' := None, held;
    match op
    case Fetches(k) =>
      var page;
      page, held' := DoFetch(pool, k, held, c);
      FetchKeepsTime(p, k, Recency(pool.State()), times, now);
      reply := Some(page);
    case Writes(k, page) => DoWrite(pool, k, page, held, c);
    case Marks(k) => DoMark(pool, k, held, c);
    case Unpins(k) => DoUnpin(pool, k, held, c);
    case Flushes(k) => DoFlush(pool, k, held, c);
    case FlushesAll => DoFlushAll(pool, held, c);
  }

  /** The client after the first `i` operations, if all were disciplined. */
  ghost function ClientAt(c: Client, ops: seq<PoolOp>, i: nat): Client
    requires i <= |ops|
  {
    if i == 0 then c else Client'(ClientAt(c, ops, i - 1), ops[i - 1])
  }

  ghost predicate DisciplinedUpTo(c: Client, ops: seq<PoolOp>, frames: nat, n: nat)
    requires n <= |ops|
  {
    forall i :: 0 <= i < n ==> Disciplined(ClientAt(c, ops, i), ops[i], frames) == true
  }

  lemma NextOp(m: imap<PageKey, Page>, times: map<PageKey, nat>, now: nat, ops: seq<PoolOp>, i: nat)
    requires i < |ops| && TimesBelow(times, now)
    ensures PlainRun(m, ops[..i + 1]) == PlainStep(PlainRun(m, ops[..i]), ops[i])
    ensures var before := LastFetches(times, now, ops[..i]);
            && TimesBelow(before, now + i)
            && LastFetches(times, now, ops[..i + 1]) == if ops[i].Fetches? then before[ops[i].key := now + i] else before
  {
    var front := ops[..i + 1];
    TakeTake(ops, i, i + 1);
    assert front[|front| - 1] == ops[i];
    LastFetchesBelow(times, now, ops[..i]);
  }

  /** The first `n` replies: every fetch is answered with what plain memory holds at that point. */
  ghost predicate Replied(m: imap<PageKey, Page>, ops: seq<PoolOp>, replies: seq<Option<Page>>, n: nat)
    requires forall k :: k in m
  {
    n <= |replies| && n <= |ops| && forall i :: 0 <= i < n ==> ReplyAt(m, ops, replies[i], i) == true
  }

  ghost predicate ReplyAt(m: imap<PageKey, Page>, ops: seq<PoolOp>, reply: Option<Page>, i: nat)
    requires i < |ops| && forall k :: k in m
  {
    reply == if ops[i].Fetches? then Some(PlainRun(m, ops[..i])[ops[i].key]) else None
  }

  lemma ReplyNext(m: imap<PageKey, Page>, ops: seq<PoolOp>, replies: seq<Option<Page>>, n: nat, reply: Option<Page>)
    requires (forall k :: k in m) && n == |replies| < |ops| && Replied(m, ops, replies, n)
    requires reply == if ops[n].Fetches? then Some(PlainRun(m, ops[..n])[ops[n].key]) else None
    ensures Replied(m, ops, replies + [reply], n + 1) == true
  {
    var rs := replies + [reply];
    forall i | 0 <= i < n + 1 ensures ReplyAt(m, ops, rs[i], i) == true {
      if i < n {
        assert ReplyAt(m, ops, replies[i], i) == true;
      }
    }
  }

  /** `i` operations are done: the client's books, the pages it sees and the LRU list are as they should be. */
  ghost predicate Running(pool: BufferPool, held: map<PageKey, array<Byte>>, c: Client, m: imap<PageKey, Page>,
                          times: map<PageKey, nat>, now: nat, ops: seq<PoolOp>, i: nat)
    reads pool, pool.Repr()
  {
    && i <= |ops| && Tracks(pool, ClientAt(c, ops, i), held) == true
    && Seen(pool.State()) == PlainRun(m, ops[..i])
    && ByTime(Recency(pool.State()), LastFetches(times, now, ops[..i])) == true
  }

  method RunOp(pool: BufferPool, ops: seq<PoolOp>, i: nat, held: map<PageKey, array<Byte>>, ghost c: Client, ghost m: imap<PageKey, Page>,
               ghost times: map<PageKey, nat>, ghost now: nat)
    returns (reply: Option<Page>, held': map<PageKey, array<Byte>>)
    requires Running(pool, held, c, m, times, now, ops, i) == true && i < |ops|
    requires DisciplinedUpTo(c, ops, pool.frames.Length, |ops|) == true && TimesBelow(times, now) && forall k :: k in m
    modifies pool.Repr()
    ensures Running(pool, held', c, m, times, now, ops, i + 1) == true && pool.Repr() == old(pool.Repr())
    ensures reply == if ops[i].Fetches? then Some(PlainRun(m, ops[..i])[ops[i].key]) else None
  {
    LastFetchesBelow(times, now, ops[..i]);
    assert Disciplined(ClientAt(c, ops, i), ops[i], pool.frames.Length) == true;
    reply, held' := DoOp(pool, ops[i], held, ClientAt(c, ops, i), LastFetches(times, now, ops[..i]), now + i);
    NextRunning(pool, held', c, m, times, now, ops, i);
  }

  lemma NextRunning(pool: BufferPool, held: map<PageKey, array<Byte>>, c: Client, m: imap<PageKey, Page>, times: map<PageKey, nat>, now: nat,
                    ops: seq<PoolOp>, i: nat)
    requires i < |ops| && TimesBelow(times, now) && Tracks(pool, Client'(ClientAt(c, ops, i), ops[i]), held) == true && pool.Valid()
    requires Seen(pool.State()) == PlainStep(PlainRun(m, ops[..i]), ops[i])
    requires var before := LastFetches(times, now, ops[..i]);
             ByTime(Recency(pool.State()), if ops[i].Fetches? then before[ops[i].key := now + i] else before) == true
    ensures Running(pool, held, c, m, times, now, ops, i + 1) == true
  {
    NextOp(m, times, now, ops, i);
  }

  /** Any list of operations by a disciplined client, done on the pool: every fetch is served, every page handed out is
      what plain memory would hold then, and so is what the pool holds in the end. The LRU list is in order of last
      fetches throughout. */
  method Execute(pool: BufferPool, ops: seq<PoolOp>, ghost c: Client, ghost times: map<PageKey, nat>, ghost now: nat)
    returns (replies: seq<Option<Page>>)
    requires Tracks(pool, c, map[]) == true && DisciplinedUpTo(c, ops, pool.frames.Length, |ops|) == true
    requires ByTime(Recency(pool.State()), times) == true && TimesBelow(times, now)
    modifies pool.Repr()
    ensures pool.Valid() && Seen(pool.State()) == PlainRun(Seen(old(pool.State())), ops) && |replies| == |ops|
    ensures Replied(Seen(old(pool.State())), ops, replies, |ops|)
    ensures ByTime(Recency(pool.State()), LastFetches(times, now, ops))
  {
    ghost var m := Seen(pool.State());
    var held: map<PageKey, array<Byte>> := map[];
    replies := [];
    var i := 0;
    while i < |ops|
      invariant i <= |ops| && |replies| == i && pool.Repr() == old(pool.Repr())
      invariant Running(pool, held, c, m, times, now, ops, i) == true && Replied(m, ops, replies, i) == true
    {
      var reply;
      reply, held := RunOp(pool, ops, i, held, c, m, times, now);
      ReplyNext(m, ops, replies, i, reply);
      replies := replies + [reply];
      i := i + 1;
    }
    TakeAll(ops);
  }
}
