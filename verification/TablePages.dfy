// How the table layer uses the buffer pool: one page at a time, pinned, changed, marked dirty and unpinned again.
module TablePages {
  import opened PoolMap
  import opened PoolList
  import opened BufferPool
  import opened Bytes
  import opened Common
  import P = Page
  import R = PoolRuns

  /** Nothing is pinned: every table operation starts and ends like this. */
  ghost predicate Unpinned(p: Pool)
    requires Ok(p)
  {
    forall k :: PinOf(p, k) == 0
  }

  /** While nothing is pinned a fetch finds a frame, and every cached page is dirty or equal to its copy on disk. */
  lemma FrameToHave(p: Pool, k: PageKey)
    requires Ok(p) && Unpinned(p)
    ensures !AllPinned(p) && Saved(p, k)
  {
    At(p, 0);
    if p.fs[0].valid {
      assert PinOf(p, p.fs[0].key) == p.fs[0].pin;
    }
    if k in p.index {
      At(p, p.index[k]);
      assert PinOf(p, k) == p.fs[p.index[k]].pin;
    }
  }

  /** `q` can be told from `p`, if at all, only by page `k`, and has cached no page but `k` since. */
  ghost predicate OnlyAt(p: Pool, k: PageKey, q: Pool)
    requires Ok(p) && Ok(q)
  {
    && (forall x :: x != k ==> Logical(q, x) == Logical(p, x))
    && (forall x :: x in q.index ==> x == k || x in p.index)
  }

  /** Page `k` is pinned by this operation and by nobody else, and reads `page`. */
  ghost predicate Holding(p: Pool, k: PageKey, q: Pool, page: Page)
    requires Ok(p) && Ok(q)
  {
    && k in q.index && PinOf(q, k) == 1 && (forall x :: x != k ==> PinOf(q, x) == 0)
    && OnlyAt(p, k, q) && Logical(q, k) == page
  }

  /** The operation is over: nothing is pinned, and page `k` reads `page`. */
  ghost predicate Released(p: Pool, k: PageKey, q: Pool, page: Page)
    requires Ok(p) && Ok(q)
  {
    Unpinned(q) && OnlyAt(p, k, q) && Logical(q, k) == page
  }

  lemma FetchHolds(p: Pool, k: PageKey, q: Pool)
    requires Ok(p) && Unpinned(p) && WasFetched(p, k, q)
    ensures Holding(p, k, q, Logical(p, k)) && Saved(q, k)
  {
    FrameToHave(p, k);
  }

  /** buffer_pool_fetch, which cannot fail while nothing is pinned. */
  method Take(pool: BufferPool, k: PageKey) returns (buf: array<Byte>)
    requires pool.Valid() && Unpinned(pool.State()) && k.fd >= 0
    modifies pool.Repr()
    ensures pool.Valid() && pool.Repr() == old(pool.Repr())
    ensures Holding(old(pool.State()), k, pool.State(), Logical(old(pool.State()), k)) == true && Saved(pool.State(), k)
    ensures InBuffer(pool, k, buf)
  {
    ghost var before := pool.State();
    FrameToHave(before, k);
    var b := pool.Fetch(k);
    FetchHolds(before, k, pool.State());
    buf := b;
  }

  /** `buf` is the buffer of the frame that holds page `k`. */
  ghost predicate InBuffer(pool: BufferPool, k: PageKey, buf: array<Byte>)
    requires pool.Valid()
    reads pool, pool.Repr(), buf
  {
    && k in pool.index && pool.index[k] < |pool.bufs| && buf == pool.bufs[pool.index[k]] && buf in pool.buffers
    && buf[..] == Logical(pool.State(), k)
  }

  /** buffer_pool_unpin of a page that was only read. */
  method GiveBack(pool: BufferPool, k: PageKey, ghost p: Pool, ghost page: Page)
    requires pool.Valid() && Ok(p) && Holding(p, k, pool.State(), page) && Saved(pool.State(), k)
    modifies pool.Repr()
    ensures pool.Valid() && pool.Repr() == old(pool.Repr()) && Released(p, k, pool.State(), page)
  {
    pool.Unpin(k);
  }

  /** buffer_pool_mark_dirty and buffer_pool_unpin of a page that was changed. */
  method PutBack(pool: BufferPool, k: PageKey, ghost p: Pool, ghost page: Page)
    requires pool.Valid() && Ok(p) && Holding(p, k, pool.State(), page)
    modifies pool.Repr()
    ensures pool.Valid() && pool.Repr() == old(pool.Repr()) && Released(p, k, pool.State(), page)
  {
    pool.MarkDirty(k);
    pool.Unpin(k);
  }

  /** A write to the buffer of a pinned page. */
  lemma WriteHolds(p: Pool, k: PageKey, q: Pool, page: Page, page': Page)
    requires Ok(p) && Ok(q) && Holding(p, k, q, page) && |page'| == PAGE_SIZE
    ensures var r := R.Written(q, k, page'); Ok(r) && Holding(p, k, r, page')
  {
    R.WriteOk(q, k, page');
  }

  /** page_insert_record on a pinned page. */
  method AddSlot(pool: BufferPool, k: PageKey, buf: array<Byte>, rec: seq<Byte>, size: nat, ghost p: Pool, ghost page: Page)
    returns (slot: Option<nat>)
    requires pool.Valid() && Ok(p) && Holding(p, k, pool.State(), page) && InBuffer(pool, k, buf)
    requires P.PageOk(page, size) && |rec| == size
    modifies buf
    ensures pool.Valid() && pool.Repr() == old(pool.Repr()) && Holding(p, k, pool.State(), buf[..])
    ensures slot.None? <==> P.IsFull(P.CountOf(page), size)
    ensures slot.None? ==> buf[..] == page
    ensures slot.Some? ==> slot.value == P.CountOf(page) && P.Inserted(page, buf[..], rec, size)
  {
    ghost var before := pool.State();
    slot := P.InsertRecord(buf, rec, size);
    WriteHolds(p, k, before, page, buf[..]);
    assert pool.State() == R.Written(before, k, buf[..]);
  }

  /** page_update_record on a pinned page. */
  method SetSlot(pool: BufferPool, k: PageKey, buf: array<Byte>, slot: nat, rec: seq<Byte>, size: nat, ghost p: Pool, ghost page: Page)
    returns (ok: bool)
    requires pool.Valid() && Ok(p) && Holding(p, k, pool.State(), page) && InBuffer(pool, k, buf)
    requires P.PageOk(page, size) && |rec| == size
    modifies buf
    ensures pool.Valid() && pool.Repr() == old(pool.Repr()) && Holding(p, k, pool.State(), buf[..])
    ensures ok == (slot < P.CountOf(page))
    ensures if ok then P.Replaced(page, buf[..], slot, rec, size) else buf[..] == page
  {
    ghost var before := pool.State();
    ok := P.UpdateRecord(buf, slot, rec, size);
    WriteHolds(p, k, before, page, buf[..]);
    assert pool.State() == R.Written(before, k, buf[..]);
  }

  /** mark_record_deleted on a pinned page. */
  method MarkSlot(pool: BufferPool, k: PageKey, buf: array<Byte>, slot: nat, at: nat, size: nat, ghost p: Pool, ghost page: Page)
    requires pool.Valid() && Ok(p) && Holding(p, k, pool.State(), page) && InBuffer(pool, k, buf)
    requires P.PageOk(page, size) && slot < P.CountOf(page) && at < size
    modifies buf
    ensures pool.Valid() && pool.Repr() == old(pool.Repr()) && Holding(p, k, pool.State(), buf[..])
    ensures P.Replaced(page, buf[..], slot, P.Records(page, size)[slot][at := 1], size)
  {
    ghost var before := pool.State();
    P.MarkDeleted(buf, slot, at, size);
    WriteHolds(p, k, before, page, buf[..]);
    assert pool.State() == R.Written(before, k, buf[..]);
  }

  // ---------------------------------------------------------------------------
  // A new page
  // ---------------------------------------------------------------------------

  ghost function WithPage(p: Pool, k: PageKey, page: Page): Pool {
    p.(disk := p.disk[k := page])
  }

  /** A page written to disk behind the pool's back is safe if the pool does not hold it. */
  lemma NewPageOk(p: Pool, k: PageKey, page: Page)
    requires Ok(p) && k !in p.index && |page| == PAGE_SIZE
    ensures var q := WithPage(p, k, page);
            Ok(q) && OnlyAt(p, k, q) && Logical(q, k) == page && (Unpinned(p) ==> Unpinned(q))
  {
    var q := WithPage(p, k, page);
    forall j | 0 <= j < |q.fs| ensures FrameOk(q, j) == true {
      At(p, j);
    }
    assert Ok(q);
    forall x ensures PinOf(q, x) == PinOf(p, x) {}
  }

  /** page_alloc: an empty page, written straight to the end of the file. */
  method AllocPage(pool: BufferPool, k: PageKey, size: nat)
    requires pool.Valid() && Unpinned(pool.State()) && k.fd >= 0 && k !in pool.index
    requires 0 <= k.page < 0x1_0000_0000 && 0 < size <= 256
    modifies pool.disk
    ensures pool.Valid() && pool.Repr() == old(pool.Repr())
    ensures OnlyAt(old(pool.State()), k, pool.State()) && Unpinned(pool.State())
    ensures P.PageOk(Logical(pool.State(), k), size) && P.Records(Logical(pool.State(), k), size) == []
    ensures P.Fresh(Logical(pool.State(), k), k.page) == true
  {
    ghost var before := pool.State();
    var buf := new Byte[PAGE_SIZE];
    P.InitHeader(buf, k.page, size);
    NewPageOk(before, k, buf[..]);
    pool.disk.Write(k, buf);
    assert pool.State().bufs == before.bufs;
    assert pool.State() == WithPage(before, k, buf[..]);
  }
}
