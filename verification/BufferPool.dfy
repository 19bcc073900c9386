// The buffer pool: a cache of pages over the disk that no client can tell from the disk itself.
module BufferPool {
  import opened PoolMap
  import opened PoolList
  import opened Bytes
  import opened Common

  const MAP_FACTOR := 4
  const MAX_FRAMES := 0x4000_0000

  type Page = seq<Byte>
  type Pages = map<PageKey, Page>

  /** page_read past the end of a file yields zeros. */
  ghost function OnDisk(disk: Pages, k: PageKey): Page {
    if k in disk then disk[k] else seq(PAGE_SIZE, _ => 0)
  }

  // ---------------------------------------------------------------------------
  // The pool as a value
  // ---------------------------------------------------------------------------

  /** Everything in the pool and under it; `index` and `order` are what the hash map and the LRU list stand for. */
  datatype Pool = Pool(table: Table, fs: seq<Frame>, head: nat, tail: nat, bufs: seq<Page>, disk: Pages,
                       index: map<PageKey, nat>, order: seq<nat>)

  ghost predicate FrameOk(p: Pool, i: nat)
    requires i < |p.fs| == |p.bufs|
  {
    var f := p.fs[i];
    && |p.bufs[i]| == PAGE_SIZE
    && (f.valid <==> i in p.order)
    && (f.valid ==> f.key.fd >= 0 && f.key in p.index && p.index[f.key] == i)
    && (!f.valid ==> f.pin == 0)
    && (f.valid && f.pin == 0 && !f.dirty ==> p.bufs[i] == OnDisk(p.disk, f.key))
  }

  ghost predicate FramesOk(p: Pool)
    requires |p.fs| == |p.bufs|
  {
    forall i :: 0 <= i < |p.fs| ==> FrameOk(p, i) == true
  }

  ghost predicate IndexOk(p: Pool) {
    forall k :: k in p.index ==> p.index[k] < |p.fs| && p.fs[p.index[k]].valid && p.fs[p.index[k]].key == k
  }

  ghost predicate DiskOk(disk: Pages) {
    forall k :: k in disk ==> |disk[k]| == PAGE_SIZE
  }

  /** The hash map, the LRU list and the frames agree, and every clean unpinned page equals its copy on disk. */
  ghost predicate Ok(p: Pool) {
    && 0 < |p.fs| == |p.bufs| <= MAX_FRAMES && |p.table| == MAP_FACTOR * |p.fs|
    && TableOk(p.table, p.index) && Linked(p.fs, p.head, p.tail, p.order)
    && IndexOk(p) && FramesOk(p) == true && DiskOk(p.disk)
  }

  /** What a client sees under `k`: the cached page, or else the one on disk. */
  ghost function Logical(p: Pool, k: PageKey): Page
    requires Ok(p)
  {
    if k in p.index then p.bufs[p.index[k]] else OnDisk(p.disk, k)
  }

  lemma At(p: Pool, i: nat)
    requires Ok(p) && i < |p.fs|
    ensures FrameOk(p, i)
  {
    assert FrameOk(p, i) == true;
  }

  ghost function PinOf(p: Pool, k: PageKey): nat
    requires Ok(p)
  {
    if k in p.index then p.fs[p.index[k]].pin else 0
  }

  /** The cached pages, most recently fetched first. */
  ghost function Recency(p: Pool): (r: seq<PageKey>)
    requires Ok(p)
    ensures |r| == |p.order|
  {
    seq(|p.order|, i requires 0 <= i < |p.order| => p.fs[p.order[i]].key)
  }

  /** The two pools look the same to every client. */
  ghost predicate SameView(p: Pool, q: Pool)
    requires Ok(p) && Ok(q)
  {
    forall k :: Logical(p, k) == Logical(q, k)
  }

  lemma {:induction false} FramesUpTo(p: Pool, n: nat)
    requires IndexOk(p) && n <= |p.fs|
    ensures |set k | k in p.index && p.index[k] < n| <= n
    decreases n
  {
    var ks := set k | k in p.index && p.index[k] < n;
    if n == 0 {
      assert ks == {};
    } else {
      FramesUpTo(p, n - 1);
      var less := set k | k in p.index && p.index[k] < n - 1;
      var extra := if exists k :: k in p.index && p.index[k] == n - 1 then {p.fs[n - 1].key} else {};
      assert ks <= less + extra;
      SubsetSize(ks, less + extra);
    }
  }

  /** At most one page per frame, so the hash map is at most a quarter full. */
  lemma LightlyLoaded(p: Pool)
    requires Ok(p)
    ensures |p.index.Keys| <= |p.fs| && MAP_FACTOR * |p.index.Keys| <= |p.table|
  {
    FramesUpTo(p, |p.fs|);
    assert (set k | k in p.index && p.index[k] < |p.fs|) == p.index.Keys;
  }

  // ---------------------------------------------------------------------------
  // Changes to one frame's metadata
  // ---------------------------------------------------------------------------

  /** Frame `i` gets another pin count and dirty flag, and possibly its page is written out. */
  lemma FrameChangeOk(p: Pool, i: nat, f: Frame, disk: Pages)
    requires Ok(p) && i < |p.fs| && p.fs[i].valid && f == p.fs[i].(pin := f.pin, dirty := f.dirty)
    requires disk == p.disk || disk == p.disk[f.key := p.bufs[i]]
    requires f.pin == 0 && !f.dirty ==> p.bufs[i] == OnDisk(disk, f.key)
    ensures Ok(p.(fs := p.fs[i := f], disk := disk)) && SameView(p, p.(fs := p.fs[i := f], disk := disk))
    ensures Recency(p.(fs := p.fs[i := f], disk := disk)) == Recency(p)
  {
    var q := p.(fs := p.fs[i := f], disk := disk);
    At(p, i);
    forall j | 0 <= j < |q.fs| ensures FrameOk(q, j) == true {
      At(p, j);
    }
    assert Linked(q.fs, q.head, q.tail, q.order) by {
      forall x | 0 <= x < |p.order| ensures LinkAt(q.fs, q.order, x) {
        assert LinkAt(p.fs, p.order, x);
      }
    }
  }

  // ---------------------------------------------------------------------------
  // Eviction and loading
  // ---------------------------------------------------------------------------

  /** The last position in `order` whose frame is unpinned. */
  ghost predicate IsVictim(p: Pool, x: nat)
    requires Ok(p)
  {
    && x < |p.order| && p.fs[p.order[x]].pin == 0
    && forall y :: x < y < |p.order| ==> p.fs[p.order[y]].pin > 0
  }

  /** Every frame holds a pinned page. */
  ghost predicate AllPinned(p: Pool)
    requires Ok(p)
  {
    forall i :: 0 <= i < |p.fs| ==> p.fs[i].valid && p.fs[i].pin > 0
  }

  ghost function WrittenOut(p: Pool, i: nat): Pages
    requires i < |p.fs| == |p.bufs|
  {
    if p.fs[i].dirty then p.disk[p.fs[i].key := p.bufs[i]] else p.disk
  }

  /** The pool after frame `order[x]` has been evicted; `table` is its hash map then. */
  ghost function Evicted(p: Pool, x: nat, table: Table): Pool
    requires Linked(p.fs, p.head, p.tail, p.order) && |p.fs| == |p.bufs| && x < |p.order|
  {
    var i := p.order[x];
    var f := p.fs[i];
    UnlinkOk(p.fs, p.head, p.tail, p.order, x);
    var fs := Unlink(p.fs, i);
    Pool(table, fs[i := fs[i].(dirty := false, valid := false)],
         if f.prev == NONE then f.next else p.head, if f.next == NONE then f.prev else p.tail,
         p.bufs, WrittenOut(p, i), p.index - {f.key}, Cut(p.order, x))
  }

  lemma OrderFrames(p: Pool, x: nat)
    requires Ok(p) && x < |p.order|
    ensures p.order[x] < |p.fs| && p.fs[p.order[x]].valid
    ensures p.fs[p.order[x]].key in p.index && p.index[p.fs[p.order[x]].key] == p.order[x]
  {
    assert p.order[x] in p.order;
    At(p, p.order[x]);
  }

  lemma EvictedFrames(p: Pool, x: nat, table: Table)
    requires Ok(p) && x < |p.order| && p.fs[p.order[x]].pin == 0
    ensures var q := Evicted(p, x, table);
            |q.fs| == |p.fs| && FramesOk(q) == true
  {
    var q, i := Evicted(p, x, table), p.order[x];
    UnlinkOk(p.fs, p.head, p.tail, p.order, x);
    CutAt(p.order, x);
    OrderFrames(p, x);
    forall j | 0 <= j < |q.fs| ensures FrameOk(q, j) == true {
      At(p, j);
      At(p, i);
    }
  }

  lemma EvictOk(p: Pool, x: nat, table: Table)
    requires Ok(p) && x < |p.order| && p.fs[p.order[x]].pin == 0
    requires |table| == |p.table| && TableOk(table, p.index - {p.fs[p.order[x]].key})
    ensures Ok(Evicted(p, x, table)) && SameView(p, Evicted(p, x, table))
  {
    var q, i := Evicted(p, x, table), p.order[x];
    UnlinkOk(p.fs, p.head, p.tail, p.order, x);
    CutAt(p.order, x);
    EvictedFrames(p, x, table);
    OrderFrames(p, x);
    At(p, i);
    assert IndexOk(q);
    assert Linked(q.fs, q.head, q.tail, q.order) by {
      EvictedLinks(p, x, table);
    }
    forall k ensures Logical(p, k) == Logical(q, k) {}
  }

  lemma EvictedLinks(p: Pool, x: nat, table: Table)
    requires Ok(p) && x < |p.order|
    ensures var q := Evicted(p, x, table); Linked(q.fs, q.head, q.tail, q.order)
  {
    var q, i := Evicted(p, x, table), p.order[x];
    UnlinkOk(p.fs, p.head, p.tail, p.order, x);
    CutAt(p.order, x);
    var fs := Unlink(p.fs, i);
    forall y | 0 <= y < |q.order| ensures LinkAt(q.fs, q.order, y) {
      assert LinkAt(fs, q.order, y);
    }
  }

  /** The pool after page `k` has been loaded into the free frame `i`. */
  ghost function Loaded(p: Pool, i: nat, k: PageKey, table: Table): Pool
    requires Linked(p.fs, p.head, p.tail, p.order) && i < |p.fs| == |p.bufs|
  {
    var fs := p.fs[i := Frame(k, 1, false, true, p.fs[i].prev, p.fs[i].next)];
    Pool(table, Push(fs, p.head, i), i, if p.tail == NONE then i else p.tail,
         p.bufs[i := OnDisk(p.disk, k)], p.disk, p.index[k := i], [i] + p.order)
  }

  lemma LoadedLinks(p: Pool, i: nat, k: PageKey, table: Table)
    requires Ok(p) && i < |p.fs| && !p.fs[i].valid
    ensures var q := Loaded(p, i, k, table);
            && Linked(q.fs, q.head, q.tail, q.order)
            && SameButLinks(p.fs[i := Frame(k, 1, false, true, p.fs[i].prev, p.fs[i].next)], q.fs)
  {
    At(p, i);
    var fs := p.fs[i := Frame(k, 1, false, true, p.fs[i].prev, p.fs[i].next)];
    forall y | 0 <= y < |p.order| ensures LinkAt(fs, p.order, y) {
      assert p.order[y] in p.order && LinkAt(p.fs, p.order, y);
    }
    PushOk(fs, p.head, p.tail, p.order, i);
  }

  lemma LoadOk(p: Pool, i: nat, k: PageKey, table: Table)
    requires Ok(p) && i < |p.fs| && !p.fs[i].valid && k !in p.index && k.fd >= 0
    requires |table| == |p.table| && TableOk(table, p.index[k := i])
    ensures Ok(Loaded(p, i, k, table)) && SameView(p, Loaded(p, i, k, table))
    ensures Recency(Loaded(p, i, k, table)) == [k] + Recency(p)
  {
    LoadedLinks(p, i, k, table);
    LoadedFrames(p, i, k, table);
    LoadedKeys(p, i, k, table);
    At(p, i);
  }

  lemma LoadedFrames(p: Pool, i: nat, k: PageKey, table: Table)
    requires Ok(p) && i < |p.fs| && !p.fs[i].valid && k !in p.index && k.fd >= 0
    ensures var q := Loaded(p, i, k, table); forall j :: 0 <= j < |q.fs| ==> FrameOk(q, j) == true
  {
    var q := Loaded(p, i, k, table);
    LoadedLinks(p, i, k, table);
    At(p, i);
    forall j | 0 <= j < |q.fs| ensures FrameOk(q, j) == true {
      At(p, j);
    }
  }

  lemma LoadedKeys(p: Pool, i: nat, k: PageKey, table: Table)
    requires Ok(p) && i < |p.fs| && !p.fs[i].valid
    ensures var q := Loaded(p, i, k, table);
            forall y :: 0 <= y < |q.order| ==> 0 <= q.order[y] < |q.fs| && q.fs[q.order[y]].key == ([k] + Recency(p))[y]
  {
    var q := Loaded(p, i, k, table);
    LoadedLinks(p, i, k, table);
    At(p, i);
    forall y | 0 <= y < |q.order| ensures 0 <= q.order[y] < |q.fs| && q.fs[q.order[y]].key == ([k] + Recency(p))[y] {
      if y > 0 {
        assert p.order[y - 1] in p.order;
      }
    }
  }

  ghost function CutKeys(ks: seq<PageKey>, x: nat): seq<PageKey>
    requires x < |ks|
  {
    ks[..x] + ks[x + 1..]
  }

  lemma EvictedRecency(p: Pool, x: nat, table: Table)
    requires Ok(p) && x < |p.order| && Ok(Evicted(p, x, table))
    ensures Recency(Evicted(p, x, table)) == CutKeys(Recency(p), x)
  {
    UnlinkOk(p.fs, p.head, p.tail, p.order, x);
    CutAt(p.order, x);
  }

  /** The pool after frame `order[x]` has been moved to the front of the LRU list. */
  ghost function Touched(p: Pool, x: nat): Pool
    requires Linked(p.fs, p.head, p.tail, p.order) && x < |p.order|
  {
    var i := p.order[x];
    var f := p.fs[i];
    UnlinkOk(p.fs, p.head, p.tail, p.order, x);
    var fs, head, tail := Unlink(p.fs, i), if f.prev == NONE then f.next else p.head, if f.next == NONE then f.prev else p.tail;
    p.(fs := Push(fs, head, i), head := i, tail := if tail == NONE then i else tail, order := [i] + Cut(p.order, x))
  }

  lemma TouchedLinks(p: Pool, x: nat)
    requires Ok(p) && x < |p.order|
    ensures var q := Touched(p, x); Linked(q.fs, q.head, q.tail, q.order) && SameButLinks(p.fs, q.fs)
  {
    var i := p.order[x];
    var f := p.fs[i];
    UnlinkOk(p.fs, p.head, p.tail, p.order, x);
    CutAt(p.order, x);
    PushOk(Unlink(p.fs, i), if f.prev == NONE then f.next else p.head, if f.next == NONE then f.prev else p.tail,
           Cut(p.order, x), i);
  }

  lemma TouchOk(p: Pool, x: nat)
    requires Ok(p) && x < |p.order|
    ensures Ok(Touched(p, x)) && SameView(p, Touched(p, x))
    ensures Recency(Touched(p, x)) == [Recency(p)[x]] + CutKeys(Recency(p), x)
  {
    var q := Touched(p, x);
    TouchedLinks(p, x);
    CutAt(p.order, x);
    forall j | 0 <= j < |q.fs| ensures FrameOk(q, j) == true {
      At(p, j);
    }
    assert Ok(q);
  }

  /** Fetching `k` puts it first; on a miss with no frame unused, the least recently fetched unpinned page makes way. */
  ghost predicate Refetched(p: Pool, k: PageKey, rec: seq<PageKey>)
    requires Ok(p)
  {
    var before := Recency(p);
    if k in p.index then
      exists x :: 0 <= x < |before| && before[x] == k && rec == [k] + CutKeys(before, x)
    else if forall i :: 0 <= i < |p.fs| ==> p.fs[i].valid then
      exists x :: 0 <= x < |before| && IsVictim(p, x) && rec == [k] + CutKeys(before, x)
    else
      rec == [k] + before
  }

  ghost function Pinned(p: Pool, i: nat): Pool
    requires i < |p.fs|
  {
    p.(fs := p.fs[i := p.fs[i].(pin := p.fs[i].pin + 1)])
  }

  /** The page is dirty, or its copy on disk is up to date: unpinning it loses nothing. */
  ghost predicate Saved(p: Pool, k: PageKey)
    requires Ok(p)
  {
    k in p.index ==> p.fs[p.index[k]].dirty || p.bufs[p.index[k]] == OnDisk(p.disk, k)
  }

  /** Same pages in the same frames, in the same order of use, with the same contents for every client. */
  ghost predicate SameCache(p: Pool, q: Pool)
    requires Ok(p) && Ok(q)
  {
    SameView(p, q) && q.index == p.index && Recency(q) == Recency(p)
  }

  ghost function WithState(p: Pool, i: nat, pin: nat, dirty: bool, disk: Pages): Pool
    requires i < |p.fs|
  {
    p.(fs := p.fs[i := p.fs[i].(pin := pin, dirty := dirty)], disk := disk)
  }

  lemma SetStateOk(p: Pool, k: PageKey, pin: nat, dirty: bool, disk: Pages)
    requires Ok(p) && k in p.index
    requires disk == p.disk || disk == p.disk[k := p.bufs[p.index[k]]]
    requires pin == 0 && !dirty ==> p.bufs[p.index[k]] == OnDisk(disk, k)
    ensures var q := WithState(p, p.index[k], pin, dirty, disk);
            && Ok(q) && SameCache(p, q) && PinOf(q, k) == pin && (forall x :: x != k ==> PinOf(q, x) == PinOf(p, x))
            && (dirty || disk != p.disk ==> Saved(q, k)) && (forall x :: x != k && Saved(p, x) ==> Saved(q, x))
            && (dirty == p.fs[p.index[k]].dirty && Saved(p, k) ==> Saved(q, k))
  {
    var i := p.index[k];
    FrameChangeOk(p, i, p.fs[i].(pin := pin, dirty := dirty), disk);
  }

  ghost function Flushed(p: Pool, i: nat): Pool
    requires i < |p.fs| == |p.bufs|
  {
    WithState(p, i, p.fs[i].pin, false, p.disk[p.fs[i].key := p.bufs[i]])
  }

  lemma FlushedOk(p: Pool, i: nat)
    requires Ok(p) && i < |p.fs| && p.fs[i].valid
    ensures p.fs[i].key in p.index && p.index[p.fs[i].key] == i
    ensures var q := Flushed(p, i);
            && Ok(q) && SameCache(p, q) && Saved(q, p.fs[i].key) && OnDisk(q.disk, p.fs[i].key) == p.bufs[i]
            && (forall x :: PinOf(q, x) == PinOf(p, x)) && (forall x :: Saved(p, x) ==> Saved(q, x))
  {
    At(p, i);
    SetStateOk(p, p.fs[i].key, p.fs[i].pin, false, p.disk[p.fs[i].key := p.bufs[i]]);
  }

  ghost predicate DirtyIn(p: Pool, k: PageKey)
    requires Ok(p)
  {
    k in p.index && p.fs[p.index[k]].dirty
  }

  /** flush_all has come to frame `i`: pages before it are on disk unless their client has unmarked changes. */
  ghost predicate FlushedTo(before: Pool, p: Pool, i: nat)
    requires Ok(before)
  {
    && Ok(p) && SameCache(before, p) && p.bufs == before.bufs && |p.fs| == |before.fs|
    && (forall j :: 0 <= j < |p.fs| ==> p.fs[j] == before.fs[j].(dirty := p.fs[j].dirty))
    && (forall j :: i <= j < |p.fs| ==> p.fs[j] == before.fs[j] && (p.fs[j].valid ==> OnDisk(p.disk, p.fs[j].key) == OnDisk(before.disk, p.fs[j].key)))
    && (forall j :: 0 <= j < i < |p.fs| + 1 && j < |p.fs| && p.fs[j].valid && Saved(before, p.fs[j].key) ==> OnDisk(p.disk, p.fs[j].key) == p.bufs[j])
    && (forall x :: Saved(before, x) ==> Saved(p, x))
  }

  /** Frames before `i` are clean, and only pages that were dirty have been written. */
  ghost predicate CleanTo(before: Pool, p: Pool, i: nat)
    requires Ok(before) && Ok(p)
  {
    && (forall j :: 0 <= j < i && j < |p.fs| && p.fs[j].valid ==> !p.fs[j].dirty)
    && (forall x :: !DirtyIn(before, x) ==> OnDisk(p.disk, x) == OnDisk(before.disk, x))
  }

  lemma FlushStart(p: Pool)
    requires Ok(p)
    ensures FlushAt(p, p, 0)
  {
  }

  lemma KeysDiffer(p: Pool, i: nat)
    requires Ok(p) && i < |p.fs| && p.fs[i].valid
    ensures forall j :: 0 <= j < |p.fs| && j != i && p.fs[j].valid ==> p.fs[j].key != p.fs[i].key
  {
    forall j | 0 <= j < |p.fs| && j != i && p.fs[j].valid ensures p.fs[j].key != p.fs[i].key {
      At(p, j);
      At(p, i);
    }
  }

  lemma FlushSkip(before: Pool, p: Pool, i: nat)
    requires Ok(before) && FlushedTo(before, p, i) && i < |p.fs| && !(p.fs[i].valid && p.fs[i].dirty)
    ensures FlushedTo(before, p, i + 1)
  {
    At(before, i);
  }

  lemma FlushWrite(before: Pool, p: Pool, i: nat)
    requires Ok(before) && FlushedTo(before, p, i) && i < |p.fs| && p.fs[i].valid && p.fs[i].dirty
    ensures FlushedTo(before, Flushed(p, i), i + 1)
  {
    FlushedOk(p, i);
    KeysDiffer(p, i);
    var q := Flushed(p, i);
    forall j | 0 <= j < |q.fs| && j != i && q.fs[j].valid ensures OnDisk(q.disk, q.fs[j].key) == OnDisk(p.disk, q.fs[j].key) {}
    assert SameCache(before, q);
  }

  lemma CleanWrite(before: Pool, p: Pool, i: nat)
    requires Ok(before) && FlushedTo(before, p, i) && i < |p.fs| && p.fs[i].valid && p.fs[i].dirty
    requires CleanTo(before, p, i) && Ok(Flushed(p, i))
    ensures CleanTo(before, Flushed(p, i), i + 1) == true
  {
    At(p, i);
    assert p.fs[i] == before.fs[i];
    assert DirtyIn(before, p.fs[i].key);
  }

  /** What flush_all has done when it has come to frame `i`. */
  ghost predicate FlushAt(before: Pool, p: Pool, i: nat)
    requires Ok(before)
  {
    FlushedTo(before, p, i) == true && Ok(p) && CleanTo(before, p, i) == true
  }

  lemma FlushStep(before: Pool, p: Pool, i: nat)
    requires Ok(before) && FlushAt(before, p, i) && i < |p.fs|
    ensures p.fs[i].valid && p.fs[i].dirty ==> FlushAt(before, Flushed(p, i), i + 1) == true
    ensures !(p.fs[i].valid && p.fs[i].dirty) ==> FlushAt(before, p, i + 1) == true
  {
    if p.fs[i].valid && p.fs[i].dirty {
      FlushWrite(before, p, i);
      CleanWrite(before, p, i);
    } else {
      FlushSkip(before, p, i);
    }
  }

  lemma FlushDone(before: Pool, p: Pool)
    requires Ok(before) && FlushAt(before, p, |p.fs|)
    ensures SameCache(before, p) && (forall k :: Saved(before, k) ==> OnDisk(p.disk, k) == Logical(p, k))
    ensures forall q :: PinOf(p, q) == PinOf(before, q)
    ensures (forall i :: 0 <= i < |p.fs| && p.fs[i].valid ==> !p.fs[i].dirty)
    ensures forall k :: !DirtyIn(before, k) ==> OnDisk(p.disk, k) == OnDisk(before.disk, k)
  {
  }

  /** A fetch of a cached page pins it once more and changes nothing else a client can see. */
  ghost predicate WasHit(p: Pool, k: PageKey, q: Pool)
    requires Ok(p)
  {
    && Ok(q) && SameView(p, q) && q.index == p.index && (forall x :: Saved(p, x) ==> Saved(q, x))
    && PinOf(q, k) == PinOf(p, k) + 1 && (forall x :: x != k ==> PinOf(q, x) == PinOf(p, x))
    && Refetched(p, k, Recency(q))
  }

  /** Where the page's frame stands in the LRU list. */
  lemma PlaceOf(p: Pool, k: PageKey) returns (x: nat)
    requires Ok(p) && k in p.index
    ensures x < |p.order| && p.order[x] == p.index[k] < |p.bufs|
  {
    At(p, p.index[k]);
    x :| x < |p.order| && p.order[x] == p.index[k];
  }

  lemma HitOk(p: Pool, i: nat, k: PageKey, x: nat)
    requires Ok(p) && k in p.index && p.index[k] == i && x < |p.order| && p.order[x] == i
    ensures Linked(Pinned(p, i).fs, p.head, p.tail, p.order)
    ensures var q := Touched(Pinned(p, i), x); Ok(q) && WasHit(p, k, q) == true && SameView(p, q) && q.index == p.index
  {
    PinnedOk(p, i);
    At(p, i);
    TouchOk(Pinned(p, i), x);
    PinnedPins(p, i, k);
    TouchedPins(Pinned(p, i), x);
    assert Recency(p)[x] == k;
  }

  lemma PinnedOk(p: Pool, i: nat)
    requires Ok(p) && i < |p.fs| && p.fs[i].valid
    ensures Ok(Pinned(p, i)) && SameView(p, Pinned(p, i)) && Recency(Pinned(p, i)) == Recency(p)
  {
    var mid := Pinned(p, i);
    FrameChangeOk(p, i, mid.fs[i], p.disk);
    assert mid == p.(fs := p.fs[i := mid.fs[i]], disk := p.disk);
  }

  /** Pinning frame `i` pins its page and no other. */
  lemma PinnedPins(p: Pool, i: nat, k: PageKey)
    requires Ok(p) && i < |p.fs| && Ok(Pinned(p, i)) && k in p.index && p.index[k] == i
    ensures var q := Pinned(p, i);
            && PinOf(q, k) == PinOf(p, k) + 1 && (forall x :: x != k ==> PinOf(q, x) == PinOf(p, x))
            && forall x :: Saved(p, x) ==> Saved(q, x)
  {
    forall x | x != k && x in p.index ensures p.index[x] != i {
      At(p, p.index[x]);
      At(p, i);
    }
  }

  /** Moving a frame in the LRU list changes no pin count. */
  lemma TouchedPins(p: Pool, x: nat)
    requires Ok(p) && x < |p.order| && Ok(Touched(p, x))
    ensures var q := Touched(p, x);
            q.index == p.index && forall k :: PinOf(q, k) == PinOf(p, k) && (Saved(p, k) ==> Saved(q, k))
  {
    TouchedLinks(p, x);
  }

  /** A fetch that loads page `k`: it ends up pinned once, and pinned pages stay where they are. */
  ghost predicate WasMiss(p: Pool, k: PageKey, q: Pool)
    requires Ok(p)
  {
    && Ok(q) && SameView(p, q) && k in q.index && PinOf(q, k) == 1 && Saved(q, k)
    && (forall x :: Saved(p, x) ==> Saved(q, x))
    && (forall x :: x != k && PinOf(p, x) > 0 ==> x in q.index && q.index[x] == p.index[x] && PinOf(q, x) == PinOf(p, x))
    && (forall x :: x in q.index ==> x == k || (x in p.index && PinOf(q, x) == PinOf(p, x)))
    && Refetched(p, k, Recency(q))
  }

  lemma LoadPins(p: Pool, i: nat, k: PageKey, table: Table)
    requires Ok(p) && i < |p.fs| && !p.fs[i].valid && k !in p.index && k.fd >= 0 && Ok(Loaded(p, i, k, table))
    ensures var q := Loaded(p, i, k, table);
            && PinOf(q, k) == 1 && (forall x :: x in q.index ==> x == k || x in p.index)
            && Saved(q, k) && (forall x :: Saved(p, x) ==> Saved(q, x))
            && forall x :: x in p.index ==> x in q.index && q.index[x] == p.index[x] && PinOf(q, x) == PinOf(p, x)
  {
    LoadedLinks(p, i, k, table);
  }

  lemma MissFree(p: Pool, i: nat, k: PageKey, table: Table)
    requires Ok(p) && i < |p.fs| && !p.fs[i].valid && k !in p.index && k.fd >= 0
    requires |table| == |p.table| && TableOk(table, p.index[k := i])
    ensures WasMiss(p, k, Loaded(p, i, k, table))
  {
    LoadOk(p, i, k, table);
    LoadPins(p, i, k, table);
  }

  lemma EvictPins(p: Pool, x: nat, table: Table)
    requires Ok(p) && x < |p.order| && p.fs[p.order[x]].pin == 0 && Ok(Evicted(p, x, table))
    ensures var q := Evicted(p, x, table);
            && (forall k :: k in q.index ==> k in p.index && PinOf(q, k) == PinOf(p, k))
            && (forall k :: Saved(p, k) ==> Saved(q, k))
            && forall k :: PinOf(p, k) > 0 ==> k in q.index && q.index[k] == p.index[k] && PinOf(q, k) == PinOf(p, k)
  {
    UnlinkOk(p.fs, p.head, p.tail, p.order, x);
    OrderFrames(p, x);
  }

  lemma MissEvict(p: Pool, x: nat, k: PageKey, t1: Table, t2: Table)
    requires Ok(p) && IsVictim(p, x) && k !in p.index && k.fd >= 0 && forall j :: 0 <= j < |p.fs| ==> p.fs[j].valid
    requires Ok(Evicted(p, x, t1)) && SameView(p, Evicted(p, x, t1))
    requires var e := Evicted(p, x, t1); |t2| == |t1| && TableOk(t2, e.index[k := p.order[x]])
    requires p.order[x] < |p.fs| && !Evicted(p, x, t1).fs[p.order[x]].valid
    ensures WasMiss(p, k, Loaded(Evicted(p, x, t1), p.order[x], k, t2))
  {
    var e := Evicted(p, x, t1);
    EvictPins(p, x, t1);
    EvictedRecency(p, x, t1);
    MissFree(e, p.order[x], k, t2);
    LoadPins(e, p.order[x], k, t2);
    assert Recency(Loaded(e, p.order[x], k, t2)) == [k] + CutKeys(Recency(p), x) by {
      LoadOk(e, p.order[x], k, t2);
    }
  }

  ghost predicate WasFetched(p: Pool, k: PageKey, q: Pool)
    requires Ok(p)
  {
    if k in p.index then WasHit(p, k, q) else WasMiss(p, k, q)
  }

  lemma RelinkedOthers(fs: seq<Frame>, head: nat, tail: nat, order: seq<nat>, i: nat, f: Frame)
    requires Linked(fs, head, tail, order) && i < |fs| && i !in order
    ensures Linked(fs[i := f], head, tail, order)
  {
    var gs := fs[i := f];
    forall y | 0 <= y < |order| ensures LinkAt(gs, order, y) {
      assert order[y] in order && LinkAt(fs, order, y);
    }
  }

  // ---------------------------------------------------------------------------
  // The disk
  // ---------------------------------------------------------------------------

  class Disk {
    var pages: Pages

    constructor ()
      ensures pages == map[]
    {
      pages := map[];
    }

    /** page_read */
    method Read(k: PageKey, buf: array<Byte>) returns (ok: bool)
      requires buf.Length == PAGE_SIZE && DiskOk(pages)
      modifies buf
      ensures ok == (k.fd >= 0) && buf[..] == if ok then OnDisk(pages, k) else old(buf[..])
      ensures ok ==> if k in pages then buf[..] == pages[k] else forall i :: 0 <= i < PAGE_SIZE ==> buf[i] == 0
    {
      if k.fd < 0 {
        return false;
      }
      var i := 0;
      ghost var want := OnDisk(pages, k);
      while i < PAGE_SIZE
        invariant 0 <= i <= PAGE_SIZE && buf[..i] == want[..i]
      {
        buf[i] := if k in pages then pages[k][i] else 0;
        assert buf[..i + 1] == buf[..i] + [buf[i]];
        i := i + 1;
      }
      assert buf[..] == buf[..i] && want == want[..i];
      return true;
    }

    /** page_write */
    method Write(k: PageKey, buf: array<Byte>)
      requires k.fd >= 0 && buf.Length == PAGE_SIZE
      modifies this
      ensures pages == old(pages)[k := buf[..]]
    {
      pages := pages[k := buf[..]];
    }
  }

  // ---------------------------------------------------------------------------
  // The pool in memory
  // ---------------------------------------------------------------------------

  class BufferPool {
    const frames: array<Frame>
    const table: array<Bucket>
    const bufs: seq<array<Byte>>
    const disk: Disk
    var head: nat
    var tail: nat
    var hits: nat
    var misses: nat
    ghost var index: map<PageKey, nat>
    ghost var order: seq<nat>

    /** The frames' page buffers, as a set. */
    ghost var buffers: set<object>

    ghost predicate Layout()
      reads this`buffers
    {
      && buffers == (set b | b in bufs)
      && |bufs| == frames.Length
      && (forall i :: 0 <= i < |bufs| ==> bufs[i].Length == PAGE_SIZE)
      && (forall i, j :: 0 <= i < j < |bufs| ==> bufs[i] != bufs[j])
    }

    ghost function Repr(): set<object>
      reads this`buffers
    {
      {this, frames, table, disk} + buffers
    }

    /** What the pool stands for. */
    ghost function State(): Pool
      requires Layout()
      reads this, Repr()
    {
      Pool(table[..], frames[..], head, tail, seq(|bufs|, i requires 0 <= i < |bufs| reads bufs => bufs[i][..]),
           disk.pages, index, order)
    }

    ghost predicate Valid()
      reads this, Repr()
    {
      Layout() && Ok(State())
    }

    /** buffer_pool_create */
    constructor (n: nat, disk: Disk)
      requires 0 < n <= MAX_FRAMES && DiskOk(disk.pages)
      ensures Valid() && this.disk == disk && frames.Length == n && index == map[] && hits == misses == 0
      ensures fresh(Repr() - {disk})
    {
      var bs := NewBuffers(n);
      this.disk := disk;
      bufs := bs;
      frames := new Frame[n](_ => Frame(PageKey(-1, 0xFFFF_FFFF), 0, false, false, NONE, NONE));
      table := new Bucket[n * MAP_FACTOR](_ => Vacant);
      head, tail, hits, misses := NONE, NONE, 0, 0;
      index, order := map[], [];
      buffers := set b | b in bs;
    }

    // The steps below change one part of the pool each; the lemmas above say what they add up to.

    /** _lru_remove */
    method LruRemove(i: nat, ghost x: nat)
      requires Linked(frames[..], head, tail, order) && x < |order| && order[x] == i
      modifies frames, this`head, this`tail
      ensures NeighboursOk(old(frames[..]), order, x)
      ensures var f := old(frames[..])[i];
              && frames[..] == Unlink(old(frames[..]), i)
              && head == (if f.prev == NONE then f.next else old(head)) && tail == (if f.next == NONE then f.prev else old(tail))
    {
      NeighboursIn(frames[..], head, tail, order, x);
      var prev, next := frames[i].prev, frames[i].next;
      if prev != NONE {
        frames[prev] := frames[prev].(next := next);
      } else {
        head := next;
      }
      if next != NONE {
        frames[next] := frames[next].(prev := prev);
      } else {
        tail := prev;
      }
      frames[i] := frames[i].(prev := NONE, next := NONE);
    }

    /** _lru_push_front */
    method LruPushFront(i: nat)
      requires Linked(frames[..], head, tail, order) && i < frames.Length && i !in order
      modifies frames, this`head, this`tail
      ensures old(head) != NONE ==> old(head) < frames.Length
      ensures frames[..] == Push(old(frames[..]), old(head), i)
      ensures head == i && tail == if old(tail) == NONE then i else old(tail)
    {
      assert head != NONE ==> order[0] == head && head in order;
      frames[i] := frames[i].(prev := NONE, next := head);
      if head != NONE {
        frames[head] := frames[head].(prev := i);
      }
      head := i;
      if tail == NONE {
        tail := i;
      }
    }

    /** _lru_touch */
    method LruTouch(i: nat, ghost x: nat)
      requires Layout() && Linked(frames[..], head, tail, order) && x < |order| && order[x] == i
      modifies frames, this`head, this`tail, this`order
      ensures Layout() && State() == Touched(old(State()), x)
    {
      ghost var before := State();
      UnlinkOk(frames[..], head, tail, order, x);
      CutAt(order, x);
      LruRemove(i, x);
      order := Cut(order, x);
      LruPushFront(i);
      order := [i] + order;
      assert State().bufs == before.bufs;
    }

    /** A dirty page is written out, and the hash map forgets it. */
    method DropKey(i: nat)
      requires Layout() && i < frames.Length && frames[i].key in index && frames[i].key.fd >= 0
      requires TableOk(table[..], index) && |index.Keys| < table.Length
      modifies table, disk, this`index
      ensures Layout() && TableOk(table[..], index) && |table[..]| == |old(table[..])|
      ensures State() == old(State()).(table := table[..], disk := WrittenOut(old(State()), i), index := old(index) - {frames[i].key})
    {
      ghost var before := State();
      var key := frames[i].key;
      if frames[i].dirty {
        disk.Write(key, bufs[i]);
      }
      MapRemove(table, key, index);
      index := index - {key};
      assert State().bufs == before.bufs;
    }

    /** The second half of _find_victim: the frame at position `x` of the LRU list is written out and given up. */
    method GiveUp(i: nat, ghost x: nat)
      requires Layout() && Linked(frames[..], head, tail, order) && x < |order| && order[x] == i
      requires TableOk(table[..], index) && |index.Keys| < table.Length && frames[i].key in index && frames[i].key.fd >= 0
      modifies frames, table, disk, this`head, this`tail, this`index, this`order
      ensures Layout() && State() == Evicted(old(State()), x, table[..])
      ensures TableOk(table[..], old(index) - {old(frames[i].key)})
    {
      UnlinkOk(frames[..], head, tail, order, x);
      DropKey(i);
      ghost var mid := State();
      LruRemove(i, x);
      order := Cut(order, x);
      frames[i] := frames[i].(dirty := false, valid := false);
      assert State().bufs == mid.bufs;
    }

    method Evict(i: nat, ghost x: nat)
      requires Valid() && x < |order| && order[x] == i && frames[i].pin == 0
      modifies frames, table, disk, this`head, this`tail, this`index, this`order
      ensures Valid() && SameView(old(State()), State())
      ensures State() == Evicted(old(State()), x, table[..])
    {
      ghost var before := State();
      OrderFrames(before, x);
      At(before, i);
      LightlyLoaded(before);
      GiveUp(i, x);
      EvictOk(before, x, table[..]);
    }

    /** _find_victim: an unused frame, or else the least recently fetched unpinned one, or none if all are pinned. */
    method FindVictim() returns (i: nat, ghost evicted: Option<nat>)
      requires Valid()
      modifies frames, table, disk, this`head, this`tail, this`index, this`order
      ensures Valid() && SameView(old(State()), State())
      ensures i == NONE <==> AllPinned(old(State()))
      ensures i != NONE ==> i < frames.Length && !frames[i].valid
      ensures evicted.None? ==> State() == old(State())
      ensures evicted.Some? ==>
                && (forall j :: 0 <= j < frames.Length ==> old(frames[j]).valid)
                && IsVictim(old(State()), evicted.value) && i == old(order)[evicted.value]
                && State() == Evicted(old(State()), evicted.value, table[..])
    {
      ghost var before := State();
      evicted := None;
      i := 0;
      while i < frames.Length
        invariant State() == before && Layout()
        invariant i <= frames.Length && forall j :: 0 <= j < i ==> frames[j].valid
      {
        if !frames[i].valid {
          return;
        }
        i := i + 1;
      }
      i, evicted := LastUnpinned();
      if i != NONE {
        Evict(i, evicted.value);
        UnlinkOk(before.fs, before.head, before.tail, before.order, evicted.value);
      }
    }

    /** The walk from the tail of the LRU list to the first unpinned frame. */
    method LastUnpinned() returns (i: nat, ghost x: Option<nat>)
      requires Valid() && forall j :: 0 <= j < frames.Length ==> frames[j].valid
      ensures Layout() && State() == old(State())
      ensures i == NONE ==> x == None && AllPinned(State())
      ensures i != NONE ==> x.Some? && IsVictim(State(), x.value) && i == order[x.value] < frames.Length
    {
      ghost var before := State();
      i := tail;
      ghost var p: nat := |order|;
      while i != NONE
        invariant State() == before && Layout()
        invariant p <= |order| && i == if p == 0 then NONE else order[p - 1]
        invariant forall y :: p <= y < |order| ==> frames[order[y]].pin > 0
        decreases p
      {
        p := p - 1;
        NeighboursIn(frames[..], head, tail, order, p);
        if frames[i].pin == 0 {
          return i, Some(p);
        }
        i := frames[i].prev;
      }
      EveryFrameListed(State());
      return NONE, None;
    }

    /** The buffer of a cached page holds what clients see. */
    lemma Serves(k: PageKey)
      requires Valid() && k in index
      ensures index[k] < |bufs| && bufs[index[k]][..] == Logical(State(), k)
    {
      At(State(), index[k]);
      assert State().bufs[index[k]] == bufs[index[k]][..];
    }

    /** The page is there: pin it and make it the most recently used. */
    method Hit(i: nat, k: PageKey) returns (buf: array<Byte>)
      requires Valid() && k in index && index[k] == i
      modifies frames, this`head, this`tail, this`order, this`hits
      ensures Valid() == true && buf == bufs[i] && WasHit(old(State()), k, State()) == true
      ensures SameView(old(State()), State()) && buf[..] == Logical(old(State()), k) && k in index && index[k] == i
      ensures hits == (old(hits) + 1) % WORD
    {
      ghost var before := State();
      ghost var x := PlaceOf(before, k);
      HitOk(before, i, k, x);
      buf := bufs[i];
      PinAndTouch(i, x);
      Serves(k);
    }

    method PinAndTouch(i: nat, ghost x: nat)
      requires Layout() && i < frames.Length && x < |order| && order[x] == i
      requires Linked(Pinned(State(), i).fs, head, tail, order)
      modifies frames, this`head, this`tail, this`order, this`hits
      ensures Layout() && Linked(Pinned(old(State()), i).fs, old(head), old(tail), old(order))
      ensures State() == Touched(Pinned(old(State()), i), x) && hits == (old(hits) + 1) % WORD
    {
      ghost var before := State();
      Pin(i);
      LruTouch(i, x);
      ghost var after := State();
      hits := (hits + 1) % WORD;
      assert State() == after;
    }

    method Pin(i: nat)
      requires Layout() && i < frames.Length
      modifies frames
      ensures Layout() && State() == Pinned(old(State()), i)
    {
      ghost var before := State();
      frames[i] := frames[i].(pin := frames[i].pin + 1);
      assert State().bufs == before.bufs;
    }

    /** page_read into the frame's buffer. */
    method ReadInto(i: nat, k: PageKey) returns (ok: bool)
      requires Layout() && i < frames.Length && DiskOk(disk.pages)
      modifies bufs[i]
      ensures ok == (k.fd >= 0) && Layout()
      ensures State() == if ok then old(State()).(bufs := old(State()).bufs[i := OnDisk(disk.pages, k)]) else old(State())
    {
      ghost var before := State();
      ok := disk.Read(k, bufs[i]);
      assert State().bufs == if ok then before.bufs[i := OnDisk(disk.pages, k)] else before.bufs;
    }

    /** The frame's metadata, the hash map and the LRU list take in the page just read. */
    method Enter(i: nat, k: PageKey)
      requires Layout() && Linked(frames[..], head, tail, order) && i < frames.Length && i !in order
      requires TableOk(table[..], index) && |index.Keys| < table.Length && k !in index
      modifies frames, table, this`head, this`tail, this`index, this`order
      ensures Layout() && State().(bufs := []) == Loaded(old(State()), i, k, table[..]).(bufs := [])
      ensures State().bufs == old(State()).bufs && TableOk(table[..], old(index)[k := i])
    {
      ghost var before := State();
      frames[i] := Frame(k, 1, false, true, frames[i].prev, frames[i].next);
      VacantExists(table[..], index);
      ghost var x := MapInsert(table, k, i);
      InsertOk(before.table, index, k, i, x);
      index := index[k := i];
      RelinkedOthers(before.fs, head, tail, order, i, frames[i]);
      LruPushFront(i);
      order := [i] + order;
      assert State().bufs == before.bufs;
    }

    method Load(i: nat, k: PageKey) returns (buf: array?<Byte>)
      requires Valid() && k !in index && i < frames.Length && !frames[i].valid
      modifies frames, table, bufs[i], this`head, this`tail, this`index, this`order
      ensures Valid() && SameView(old(State()), State())
      ensures (buf == null <==> k.fd < 0) && (buf == null ==> State() == old(State()))
      ensures buf != null ==> buf == bufs[i] && State() == Loaded(old(State()), i, k, table[..])
      ensures buf != null ==> Recency(State()) == [k] + Recency(old(State()))
    {
      ghost var before := State();
      At(before, i);
      LightlyLoaded(before);
      var ok := ReadInto(i, k);
      if !ok {
        return null;
      }
      Enter(i, k);
      assert State() == Loaded(before, i, k, table[..]);
      LoadOk(before, i, k, table[..]);
      return bufs[i];
    }

    /** A page that is not cached: find a frame and load it. */
    method Miss(k: PageKey) returns (buf: array?<Byte>)
      requires Valid() && k !in index
      modifies Repr()
      ensures Valid() && SameView(old(State()), State())
      ensures buf == null <==> AllPinned(old(State())) || k.fd < 0
      ensures buf != null ==> WasMiss(old(State()), k, State()) == true && k in index && buf == bufs[index[k]]
      ensures buf != null ==> buf[..] == Logical(old(State()), k)
      ensures misses == (old(misses) + 1) % WORD && hits == old(hits)
    {
      ghost var before := State();
      misses := (misses + 1) % WORD;
      assert State() == before;
      var i;
      ghost var evicted;
      i, evicted := FindVictim();
      if i == NONE {
        return null;
      }
      ghost var mid := State();
      buf := Load(i, k);
      if buf != null {
        if evicted.None? {
          MissFree(before, i, k, table[..]);
        } else {
          MissEvict(before, evicted.value, k, mid.table, table[..]);
        }
        Serves(k);
      }
    }

    /** buffer_pool_fetch */
    method Fetch(k: PageKey) returns (buf: array?<Byte>)
      requires Valid()
      modifies Repr()
      ensures Valid() && SameView(old(State()), State())
      ensures buf == null <==> k !in old(index) && (AllPinned(old(State())) || k.fd < 0)
      ensures buf != null ==>
                && k in index && buf == bufs[index[k]] && buf[..] == Logical(old(State()), k)
                && WasFetched(old(State()), k, State()) == true
      ensures if k in old(index) then hits == (old(hits) + 1) % WORD && misses == old(misses)
              else misses == (old(misses) + 1) % WORD && hits == old(hits)
    {
      var i := FrameOf(k);
      if i.Some? {
        buf := Hit(i.value, k);
      } else {
        buf := Miss(k);
      }
    }

    /** _map_find, and the frame it leads to. */
    method FrameOf(k: PageKey) returns (i: Option<nat>)
      requires Valid()
      ensures i == if k in index then Some(index[k]) else None
    {
      var b := MapFind(table, k, index);
      i := if b < table.Length then Some(table[b].frame) else None;
    }

    /** Sets the pin count and dirty flag of a cached page. */
    method SetState(k: PageKey, b: nat, pin: nat, dirty: bool)
      requires Layout() && Ok(State()) && k in index && b < table.Length && table[b] == Full(k, index[k])
      modifies frames
      ensures index[k] < frames.Length
      ensures Layout() && State() == WithState(old(State()), index[k], pin, dirty, old(disk.pages))
    {
      ghost var before := State();
      var i := table[b].frame;
      frames[i] := frames[i].(pin := pin, dirty := dirty);
      assert State().bufs == before.bufs;
    }

    /** buffer_pool_unpin. A client that has changed the page marks it dirty first. */
    method Unpin(k: PageKey)
      requires Valid() && (PinOf(State(), k) == 1 ==> Saved(State(), k))
      modifies frames
      ensures Valid() && SameCache(old(State()), State())
      ensures PinOf(State(), k) == if PinOf(old(State()), k) > 0 then PinOf(old(State()), k) - 1 else 0
      ensures forall q :: q != k ==> PinOf(State(), q) == PinOf(old(State()), q)
      ensures forall q :: Saved(old(State()), q) ==> Saved(State(), q)
    {
      ghost var before := State();
      var b := MapFind(table, k, index);
      assert State() == before;
      if b == table.Length || frames[table[b].frame].pin == 0 {
        return;
      }
      var f := frames[table[b].frame];
      SetStateOk(before, k, f.pin - 1, f.dirty, before.disk);
      SetState(k, b, f.pin - 1, f.dirty);
    }

    /** buffer_pool_mark_dirty */
    method MarkDirty(k: PageKey)
      requires Valid()
      modifies frames
      ensures Valid() && SameCache(old(State()), State())
      ensures (k in index ==> Saved(State(), k)) && forall q :: PinOf(State(), q) == PinOf(old(State()), q)
      ensures forall q :: Saved(old(State()), q) ==> Saved(State(), q)
    {
      ghost var before := State();
      var b := MapFind(table, k, index);
      assert State() == before;
      if b == table.Length {
        return;
      }
      var f := frames[table[b].frame];
      SetStateOk(before, k, f.pin, true, before.disk);
      SetState(k, b, f.pin, true);
    }

    /** page_write of frame `i`, if it is dirty. */
    method WriteFrame(i: nat)
      requires Layout() && Ok(State()) && i < frames.Length && frames[i].valid && frames[i].dirty
      modifies frames, disk
      ensures Layout() && State() == Flushed(old(State()), i)
    {
      ghost var before := State();
      At(before, i);
      disk.Write(frames[i].key, bufs[i]);
      frames[i] := frames[i].(dirty := false);
      assert State().bufs == before.bufs;
    }

    /** buffer_pool_flush_page */
    method FlushPage(k: PageKey) returns (ok: bool)
      requires Valid()
      modifies frames, disk
      ensures Valid() && SameCache(old(State()), State()) && ok == (k in index)
      ensures ok && old(State()).fs[index[k]].dirty ==> OnDisk(disk.pages, k) == Logical(State(), k)
      ensures (ok ==> !State().fs[index[k]].dirty) && forall q :: q != k ==> OnDisk(disk.pages, q) == OnDisk(old(disk.pages), q)
      ensures forall q :: PinOf(State(), q) == PinOf(old(State()), q) && (Saved(old(State()), q) ==> Saved(State(), q))
    {
      ghost var before := State();
      var b := MapFind(table, k, index);
      assert State() == before;
      if b == table.Length {
        return false;
      }
      var i := table[b].frame;
      if frames[i].dirty {
        FlushedOk(before, i);
        WriteFrame(i);
      }
      return true;
    }

    /** buffer_pool_flush_all: afterwards the disk is what the clients see, as far as they have marked their changes. */
    method FlushAll()
      requires Valid()
      modifies frames, disk
      ensures Valid() && SameCache(old(State()), State())
      ensures forall k :: Saved(old(State()), k) ==> OnDisk(disk.pages, k) == Logical(State(), k)
      ensures forall i :: 0 <= i < frames.Length && frames[i].valid ==> !frames[i].dirty
      ensures forall k :: !DirtyIn(old(State()), k) ==> OnDisk(disk.pages, k) == OnDisk(old(disk.pages), k)
      ensures forall q :: PinOf(State(), q) == PinOf(old(State()), q) && (Saved(old(State()), q) ==> Saved(State(), q))
    {
      ghost var before := State();
      FlushStart(before);
      var i := 0;
      while i < frames.Length
        invariant i <= frames.Length == |before.fs| && Layout()
        invariant FlushAt(before, State(), i) == true
      {
        ghost var p := State();
        FlushStep(before, p, i);
        if frames[i].valid && frames[i].dirty {
          WriteFrame(i);
        }
        i := i + 1;
      }
      FlushDone(before, State());
    }
  }

  /** When every frame is in use, the LRU list runs through all of them. */
  lemma EveryFrameListed(p: Pool)
    requires Ok(p) && forall i :: 0 <= i < |p.fs| ==> p.fs[i].valid
    requires forall y :: 0 <= y < |p.order| ==> p.fs[p.order[y]].pin > 0
    ensures AllPinned(p)
  {
    forall i | 0 <= i < |p.fs| ensures p.fs[i].pin > 0 {
      At(p, i);
      assert i in p.order;
    }
  }

  method NewBuffers(n: nat) returns (bs: seq<array<Byte>>)
    ensures |bs| == n && forall i :: 0 <= i < n ==> fresh(bs[i]) && bs[i].Length == PAGE_SIZE
    ensures forall i, j :: 0 <= i < j < n ==> bs[i] != bs[j]
  {
    bs := [];
    while |bs| < n
      invariant |bs| <= n && forall i :: 0 <= i < |bs| ==> fresh(bs[i]) && bs[i].Length == PAGE_SIZE
      invariant forall i, j :: 0 <= i < j < |bs| ==> bs[i] != bs[j]
    {
      var b := new Byte[PAGE_SIZE](_ => 0);
      bs := bs + [b];
    }
  }
}
