// Whole histories of a table: the log replays to the rows, scans and counts list the rows, ids are never given out twice.
module TableHistory {
  import opened BTreeModel
  import opened TableModel
  import opened Bytes
  import opened Common
  import P = Page
  import W = Wal

  // ---------------------------------------------------------------------------
  // The log and the rows
  // ---------------------------------------------------------------------------

  /** What replaying one record does to the rows of the table with this code. */
  ghost function Replay(m: map<Key, Row>, r: W.Record, code: nat): map<Key, Row> {
    if r.table != code then m
    else match r.op
      case Insert => m[r.id := r.new_]
      case Update => m[r.id := r.new_]
      case Delete => m - {r.id}
      case _ => m
  }

  ghost function Replayed(log: seq<W.Record>, code: nat): map<Key, Row> {
    if log == [] then map[] else Replay(Replayed(log[..|log| - 1], code), log[|log| - 1], code)
  }

  lemma ReplayedNext(log: seq<W.Record>, r: W.Record, code: nat)
    ensures Replayed(log + [r], code) == Replay(Replayed(log, code), r, code)
  {
    assert (log + [r])[..|log|] == log;
  }

  /** The records the three changing operations append. */
  ghost function InsertRecord(t: Kind, lsn: nat, id: nat, r: Row): W.Record
    requires RowOk(t, r)
  {
    W.Record(lsn, 0, W.Insert, Code(t), id, W.Image(None, RecordSize(t)), r)
  }

  ghost function UpdateRecord(t: Kind, lsn: nat, id: nat, old_: Row, r: Row): W.Record
    requires RowOk(t, r)
  {
    W.Record(lsn, 0, W.Update, Code(t), id, old_, r)
  }

  ghost function DeleteRecord(t: Kind, lsn: nat, id: nat, old_: Row): W.Record {
    W.Record(lsn, 0, W.Delete, Code(t), id, old_, W.Image(None, RecordSize(t)))
  }

  // ---------------------------------------------------------------------------
  // Steps
  // ---------------------------------------------------------------------------

  /** A table and the log it shares with the other tables. */
  datatype World = World(data: Data, log: seq<W.Record>)

  /** An operation on this table, or a record that another table or a commit appends. */
  datatype TableOp =
    | Inserts(row: Row)
    | Updates(id: nat, row: Row)
    | Deletes(id: nat)
    | Elsewhere(rec: W.Record)

  ghost predicate OpOk(t: Kind, w: World, op: TableOp) {
    && Sound(t, w.data)
    && match op
       case Inserts(r) => RowOk(t, r) && w.data.nextId < KEY_LIMIT
       case Updates(_, r) => RowOk(t, r)
       case Deletes(_) => true
       case Elsewhere(rec) => rec.table != Code(t) || rec.op.Commit? || rec.op.Abort? || rec.op.Checkpoint?
  }

  ghost function Step(t: Kind, w: World, op: TableOp): World
    requires OpOk(t, w, op)
  {
    var d, lsn := w.data, |w.log| + 1;
    match op
    case Inserts(r) =>
      World(InsertRow(t, d, r), w.log + [InsertRecord(t, lsn, d.nextId, WithKey(t, r, d.nextId))])
    case Updates(id, r) =>
      if id in Rows(t, d) then World(UpdateRow(t, d, id, r), w.log + [UpdateRecord(t, lsn, id, Rows(t, d)[id], r)]) else w
    case Deletes(id) =>
      if id in Rows(t, d) then World(DeleteRow(t, d, id), w.log + [DeleteRecord(t, lsn, id, Rows(t, d)[id])]) else w
    case Elsewhere(rec) => World(d, w.log + [rec])
  }

  lemma StepSound(t: Kind, w: World, op: TableOp)
    requires OpOk(t, w, op)
    ensures Sound(t, Step(t, w, op).data)
  {
    match op
    case Inserts(r) => InsertSoundData(t, w.data, r);
    case Updates(id, r) =>
      if id in Rows(t, w.data) {
        PutSound(t, w.data, w.data.index[id], r);
      }
    case Deletes(id) => DeleteSoundData(t, w.data, id);
    case Elsewhere(_) =>
  }

  /** An update, as the code sees it: through the index to the slot. */
  lemma UpdateStep(t: Kind, w: World, id: nat, r: Row)
    requires Sound(t, w.data) && RowOk(t, r)
    ensures var d, w' := w.data, Step(t, w, Updates(id, r));
            && Sound(t, w'.data)
            && (id !in d.index ==> id !in Rows(t, d) && w' == w)
            && (id in d.index ==>
                  && Has(d.pages, d.index[id]) && RowOk(t, RowIn(d.pages, d.index[id]))
                  && (id in Rows(t, d) <==> IsLive(t, RowIn(d.pages, d.index[id])))
                  && w' == if IsLive(t, RowIn(d.pages, d.index[id]))
                     then World(d.(pages := PutRow(d.pages, d.index[id], r)),
                                w.log + [UpdateRecord(t, |w.log| + 1, id, RowIn(d.pages, d.index[id]), r)])
                     else w)
  {
    StepSound(t, w, Updates(id, r));
    FindByIndex(t, w.data, id);
  }

  /** A delete, as the code sees it. */
  lemma DeleteStep(t: Kind, w: World, id: nat)
    requires Sound(t, w.data)
    ensures var d, w' := w.data, Step(t, w, Deletes(id));
            && Sound(t, w'.data)
            && (id !in d.index ==> id !in Rows(t, d) && w' == w)
            && (id in d.index ==>
                  && Has(d.pages, d.index[id]) && RowOk(t, RowIn(d.pages, d.index[id]))
                  && (id in Rows(t, d) <==> IsLive(t, RowIn(d.pages, d.index[id])))
                  && w' == if IsLive(t, RowIn(d.pages, d.index[id]))
                     then World(Data(PutRow(d.pages, d.index[id], Marked(t, RowIn(d.pages, d.index[id]))), d.index - {id}, d.nextId),
                                w.log + [DeleteRecord(t, |w.log| + 1, id, RowIn(d.pages, d.index[id]))])
                     else w)
  {
    StepSound(t, w, Deletes(id));
    FindByIndex(t, w.data, id);
  }

  /** An insert, as the code sees it: the index has no entry for the new id. */
  lemma InsertStep(t: Kind, w: World, r: Row)
    requires Sound(t, w.data) && RowOk(t, r) && w.data.nextId < KEY_LIMIT
    ensures var d, w', row := w.data, Step(t, w, Inserts(r)), WithKey(t, r, w.data.nextId);
            && Sound(t, w'.data) && d.nextId !in d.index
            && w' == World(Data(AppendRow(t, d.pages, row), d.index[d.nextId := NextPtr(t, d.pages)], d.nextId + 1),
                           w.log + [InsertRecord(t, |w.log| + 1, d.nextId, row)])
            && |w'.data.pages| == if NextPtr(t, d.pages).pageId == |d.pages| then |d.pages| + 1 else |d.pages|
  {
    InsertSoundData(t, w.data, r);
  }

  /** Pages, index and log all describe the same rows. */
  ghost predicate Described(t: Kind, w: World) {
    Consistent(t, w.data) && Replayed(w.log, Code(t)) == Rows(t, w.data)
  }

  /** The caller hands in live records, and updates keep a row's id. */
  ghost predicate Benign(t: Kind, w: World, op: TableOp)
    requires OpOk(t, w, op)
  {
    match op
    case Inserts(r) => IsLive(t, r)
    case Updates(id, r) => id in Rows(t, w.data) ==> KeepsIdentity(t, id, r)
    case _ => true
  }

  /** A table as a plain map. */
  datatype Plain = Plain(rows: map<Key, Row>, next: nat)

  ghost function PlainStep(t: Kind, m: Plain, op: TableOp): Plain
    requires op.Inserts? ==> RowOk(t, op.row) && m.next < KEY_LIMIT
  {
    match op
    case Inserts(r) => Plain(m.rows[m.next := WithKey(t, r, m.next)], m.next + 1)
    case Updates(id, r) => if id in m.rows then m.(rows := m.rows[id := r]) else m
    case Deletes(id) => m.(rows := m.rows - {id})
    case Elsewhere(_) => m
  }

  ghost function PlainOf(t: Kind, w: World): Plain
    requires Sound(t, w.data)
  {
    Plain(Rows(t, w.data), w.data.nextId)
  }

  /** What is to be shown of one operation. */
  ghost predicate Kept(t: Kind, w: World, op: TableOp)
    requires OpOk(t, w, op) && Sound(t, Step(t, w, op).data)
  {
    && (Described(t, Step(t, w, op)) <==> Benign(t, w, op))
    && (Benign(t, w, op) ==> PlainOf(t, Step(t, w, op)) == PlainStep(t, PlainOf(t, w), op))
  }

  lemma InsertStepKeeps(t: Kind, w: World, r: Row)
    requires OpOk(t, w, Inserts(r)) && Described(t, w)
    ensures Sound(t, Step(t, w, Inserts(r)).data) && Kept(t, w, Inserts(r)) == true
  {
    var id := w.data.nextId;
    InsertKeeps(t, w.data, r);
    InsertReplays(t, w.log, id, WithKey(t, r, id));
  }

  lemma UpdateReplays(t: Kind, log: seq<W.Record>, id: nat, old_: Row, r: Row)
    requires RowOk(t, r)
    ensures Replayed(log + [UpdateRecord(t, |log| + 1, id, old_, r)], Code(t)) == Replayed(log, Code(t))[id := r]
  {
    ReplayedNext(log, UpdateRecord(t, |log| + 1, id, old_, r), Code(t));
  }

  lemma DeleteReplays(t: Kind, log: seq<W.Record>, id: nat, old_: Row)
    ensures Replayed(log + [DeleteRecord(t, |log| + 1, id, old_)], Code(t)) == Replayed(log, Code(t)) - {id}
  {
    ReplayedNext(log, DeleteRecord(t, |log| + 1, id, old_), Code(t));
  }

  lemma InsertReplays(t: Kind, log: seq<W.Record>, id: nat, r: Row)
    requires RowOk(t, r)
    ensures Replayed(log + [InsertRecord(t, |log| + 1, id, r)], Code(t)) == Replayed(log, Code(t))[id := r]
  {
    ReplayedNext(log, InsertRecord(t, |log| + 1, id, r), Code(t));
  }

  lemma UpdateStepKeeps(t: Kind, w: World, id: nat, r: Row)
    requires OpOk(t, w, Updates(id, r)) && Described(t, w)
    ensures Sound(t, Step(t, w, Updates(id, r)).data) && Kept(t, w, Updates(id, r)) == true
  {
    UpdateKeeps(t, w.data, id, r);
    if id in Rows(t, w.data) {
      UpdateReplays(t, w.log, id, Rows(t, w.data)[id], r);
    }
  }

  lemma NothingTaken(m: map<Key, Row>, id: Key)
    requires id !in m
    ensures m - {id} == m
  {
  }

  /** The log of a delete replays to the rows without that one. */
  lemma DeletedLog(t: Kind, w: World, id: nat)
    requires Sound(t, w.data) && Replayed(w.log, Code(t)) == Rows(t, w.data)
    ensures var w' := Step(t, w, Deletes(id));
            w'.data == DeleteRow(t, w.data, id) && Replayed(w'.log, Code(t)) == Rows(t, w.data) - {id}
  {
    if id in Rows(t, w.data) {
      DeleteReplays(t, w.log, id, Rows(t, w.data)[id]);
    } else {
      NothingTaken(Rows(t, w.data), id);
    }
  }

  lemma DeleteStepKeeps(t: Kind, w: World, id: nat)
    requires OpOk(t, w, Deletes(id)) && Described(t, w)
    ensures Sound(t, Step(t, w, Deletes(id)).data) && Kept(t, w, Deletes(id)) == true
  {
    DeleteKeeps(t, w.data, id);
    DeletedLog(t, w, id);
  }

  /** One operation keeps pages, index and log in agreement exactly when it is benign, and then it is the operation on the
      plain map. */
  lemma StepKeeps(t: Kind, w: World, op: TableOp)
    requires OpOk(t, w, op) && Described(t, w)
    ensures Described(t, Step(t, w, op)) <==> Benign(t, w, op)
    ensures Sound(t, Step(t, w, op).data)
    ensures Benign(t, w, op) ==> PlainOf(t, Step(t, w, op)) == PlainStep(t, PlainOf(t, w), op)
  {
    StepSound(t, w, op);
    match op
    case Inserts(r) => InsertStepKeeps(t, w, r);
    case Updates(id, r) => UpdateStepKeeps(t, w, id, r);
    case Deletes(id) => DeleteStepKeeps(t, w, id);
    case Elsewhere(rec) => ReplayedNext(w.log, rec, Code(t));
  }

  /** The moment between an operation's append to the log and its write to the page: TableFile.LogChange and LogInsert leave
      the table in this state. */
  ghost function Between(t: Kind, w: World, op: TableOp): World
    requires OpOk(t, w, op)
  {
    World(w.data, Step(t, w, op).log)
  }

  /** At that moment the log is at most one record ahead of the pages: without that record it replays to the rows still on
      them, and with it to the rows there will be. */
  lemma OneRecordAhead(t: Kind, w: World, op: TableOp)
    requires OpOk(t, w, op) && Described(t, w) && Benign(t, w, op)
    ensures var mid, w' := Between(t, w, op), Step(t, w, op);
            && Sound(t, w'.data) && Replayed(mid.log, Code(t)) == Rows(t, w'.data)
            && ((mid.log == w.log && Rows(t, w'.data) == Rows(t, mid.data))
                || (|mid.log| == |w.log| + 1 && Replayed(mid.log[..|mid.log| - 1], Code(t)) == Rows(t, mid.data)))
  {
    StepKeeps(t, w, op);
    var w' := Step(t, w, op);
    if w'.log != w.log {
      assert w'.log[..|w'.log| - 1] == w.log;
    }
  }

  // ---------------------------------------------------------------------------
  // Runs
  // ---------------------------------------------------------------------------

  ghost predicate Run(t: Kind, ws: seq<World>, ops: seq<TableOp>) {
    && |ws| == |ops| + 1
    && forall i :: 0 <= i < |ops| ==> RunAt(t, ws[i], ops[i], ws[i + 1])
  }

  ghost predicate RunAt(t: Kind, w: World, op: TableOp, w': World) {
    OpOk(t, w, op) && Benign(t, w, op) && w' == Step(t, w, op)
  }

  /** Along every run of benign operations the table is a plain map that the log describes. */
  lemma {:induction false} RunDescribed(t: Kind, ws: seq<World>, ops: seq<TableOp>, i: nat)
    requires Run(t, ws, ops) && i < |ws| && Described(t, ws[0])
    ensures Described(t, ws[i])
    ensures i > 0 ==> Sound(t, ws[i - 1].data) && OpOk(t, ws[i - 1], ops[i - 1])
                      && PlainOf(t, ws[i]) == PlainStep(t, PlainOf(t, ws[i - 1]), ops[i - 1])
    decreases i
  {
    if i > 0 {
      RunDescribed(t, ws, ops, i - 1);
      assert RunAt(t, ws[i - 1], ops[i - 1], ws[i]);
      StepKeeps(t, ws[i - 1], ops[i - 1]);
    }
  }

  /** Along a run, before, between and after its writes, all but at most the last record of the log replay to the rows on the
      pages. */
  lemma NeverFarAhead(t: Kind, ws: seq<World>, ops: seq<TableOp>, i: nat) returns (c: nat)
    requires Run(t, ws, ops) && i < |ops| && Described(t, ws[0])
    ensures Sound(t, ws[i].data) && OpOk(t, ws[i], ops[i])
    ensures var mid := Between(t, ws[i], ops[i]);
            |mid.log| - 1 <= c <= |mid.log| && Replayed(mid.log[..c], Code(t)) == Rows(t, mid.data)
  {
    RunDescribed(t, ws, ops, i);
    assert RunAt(t, ws[i], ops[i], ws[i + 1]);
    OneRecordAhead(t, ws[i], ops[i]);
    var log := Between(t, ws[i], ops[i]).log;
    c := if log == ws[i].log then |log| else |log| - 1;
    TakeAll(log);
  }

  /** A deleted row never comes back, nor does its id. */
  lemma {:induction false} GoneForGood(t: Kind, ws: seq<World>, ops: seq<TableOp>, i: nat, j: nat, id: Key)
    requires Run(t, ws, ops) && i <= j < |ws| && Described(t, ws[0])
    requires Described(t, ws[i]) && id < ws[i].data.nextId && id !in Rows(t, ws[i].data)
    ensures Described(t, ws[j]) && ws[i].data.nextId <= ws[j].data.nextId && id !in Rows(t, ws[j].data)
    decreases j
  {
    RunDescribed(t, ws, ops, j);
    if i < j {
      GoneForGood(t, ws, ops, i, j - 1, id);
    }
  }

  /** The log at an earlier moment is a prefix, and every prefix was the log at some moment. */
  lemma {:induction false} EveryPrefixWas(t: Kind, ws: seq<World>, ops: seq<TableOp>, j: nat, c: nat) returns (i: nat)
    requires Run(t, ws, ops) && j < |ws| && ws[0].log == [] && c <= |ws[j].log|
    ensures i <= j && ws[i].log == ws[j].log[..c]
    decreases j
  {
    if c == |ws[j].log| {
      i := j;
      assert ws[j].log[..c] == ws[j].log;
    } else {
      assert RunAt(t, ws[j - 1], ops[j - 1], ws[j]);
      var before, after := ws[j - 1].log, ws[j].log;
      assert before <= after && |after| <= |before| + 1;
      i := EveryPrefixWas(t, ws, ops, j - 1, c);
      assert before[..c] == after[..c];
    }
  }

  /** Recovery of a log cut off at any byte, replayed, gives the rows the table had at some moment of the run. */
  lemma RecoveredRows(t: Kind, ws: seq<World>, ops: seq<TableOp>, n: nat) returns (i: nat)
    requires Run(t, ws, ops) && Described(t, ws[0]) && ws[0].log == []
    ensures i < |ws| && Described(t, ws[i])
    ensures var log := ws[|ops|].log; Replayed(log[..W.Complete(log, n)], Code(t)) == Rows(t, ws[i].data)
  {
    var log := ws[|ops|].log;
    i := EveryPrefixWas(t, ws, ops, |ops|, W.Complete(log, n));
    RunDescribed(t, ws, ops, i);
  }

  // ---------------------------------------------------------------------------
  // The images in the log
  // ---------------------------------------------------------------------------

  /** A record of this table holds two images of the row's size: an insert has zeros before and the row's own id in the image
      after, a delete has zeros after. */
  ghost predicate ImagesOk(t: Kind, r: W.Record) {
    r.table == Code(t) && (r.op.Insert? || r.op.Update? || r.op.Delete?) ==>
      && RowOk(t, r.old_) && RowOk(t, r.new_)
      && (r.op.Insert? ==> KeyOf(t, r.new_) == r.id && forall i :: 0 <= i < RecordSize(t) ==> r.old_[i] == 0)
      && (r.op.Delete? ==> forall i :: 0 <= i < RecordSize(t) ==> r.new_[i] == 0)
  }

  /** One operation appends at most one record: its number is the next, and its images are those of the row. The image after
      an insert is the caller's record but for the key field; the image before an update or a delete is the row that was there. */
  lemma StepLogs(t: Kind, w: World, op: TableOp)
    requires OpOk(t, w, op) && !op.Elsewhere?
    ensures var log, log' := w.log, Step(t, w, op).log;
            if op.Inserts? || op.id in Rows(t, w.data) then
              && |log'| == |log| + 1 && log <= log' && ImagesOk(t, log'[|log|])
              && log'[|log|].lsn == |log| + 1 && log'[|log|].txn == 0 && log'[|log|].table == Code(t)
              && (op.Inserts? ==> && log'[|log|].op == W.Insert && log'[|log|].id == w.data.nextId
                                  && OnlyKeyed(t, op.row, w.data.nextId, log'[|log|].new_))
              && (op.Updates? ==> && log'[|log|].op == W.Update && log'[|log|].id == op.id
                                  && log'[|log|].old_ == Rows(t, w.data)[op.id] && log'[|log|].new_ == op.row)
              && (op.Deletes? ==> log'[|log|].op == W.Delete && log'[|log|].id == op.id && log'[|log|].old_ == Rows(t, w.data)[op.id])
            else log' == log
  {
    match op
    case Inserts(r) => KeyWritten(t, r, w.data.nextId);
    case Updates(id, r) => FindByIndex(t, w.data, id);
    case Deletes(id) => FindByIndex(t, w.data, id);
  }

  /** Along every run from an empty log, whatever recovery hands out of this table carries such images. */
  lemma RecoveredImages(t: Kind, ws: seq<World>, ops: seq<TableOp>, j: nat, n: nat, c: nat)
    requires Run(t, ws, ops) && j < |ws| && ws[0].log == [] && c < W.Complete(ws[j].log, n)
    ensures ImagesOk(t, ws[j].log[..W.Complete(ws[j].log, n)][c])
  {
    LoggedImages(t, ws, ops, j, c);
  }

  lemma {:induction false} LoggedImages(t: Kind, ws: seq<World>, ops: seq<TableOp>, j: nat, c: nat)
    requires Run(t, ws, ops) && j < |ws| && ws[0].log == [] && c < |ws[j].log|
    ensures ImagesOk(t, ws[j].log[c])
    decreases j
  {
    if j > 0 {
      assert RunAt(t, ws[j - 1], ops[j - 1], ws[j]);
      if c < |ws[j - 1].log| {
        LoggedImages(t, ws, ops, j - 1, c);
      } else if !ops[j - 1].Elsewhere? {
        StepLogs(t, ws[j - 1], ops[j - 1]);
      }
    }
  }

  /** What taking one record back does to the rows of the table with this code. */
  ghost function Undo(m: map<Key, Row>, r: W.Record, code: nat): map<Key, Row> {
    if r.table != code then m
    else match r.op
      case Insert => m - {r.id}
      case Update => m[r.id := r.old_]
      case Delete => m[r.id := r.old_]
      case _ => m
  }

  /** The records behind the first `c` taken back, the last one first. */
  ghost function UndoneTo(m: map<Key, Row>, log: seq<W.Record>, c: nat, code: nat): map<Key, Row>
    requires c <= |log|
    decreases |log|
  {
    if |log| == c then m else UndoneTo(Undo(m, log[|log| - 1], code), log[..|log| - 1], c, code)
  }

  lemma MapBack<V>(m: map<Key, V>, k: Key, v: V)
    ensures k !in m ==> m[k := v] - {k} == m
    ensures k in m ==> m[k := v][k := m[k]] == m && (m - {k})[k := m[k]] == m
  {
  }

  /** What is to be shown of taking an operation back. */
  ghost predicate Undone(t: Kind, w: World, w': World)
    requires Sound(t, w.data) && Sound(t, w'.data)
  {
    && w.log <= w'.log && |w'.log| <= |w.log| + 1
    && (w'.log == w.log ==> Rows(t, w'.data) == Rows(t, w.data))
    && (w'.log != w.log ==> Undo(Rows(t, w'.data), w'.log[|w.log|], Code(t)) == Rows(t, w.data))
  }

  lemma InsertUndone(t: Kind, w: World, r: Row)
    requires OpOk(t, w, Inserts(r)) && Consistent(t, w.data) && IsLive(t, r)
    ensures Sound(t, Step(t, w, Inserts(r)).data) && Undone(t, w, Step(t, w, Inserts(r))) == true
  {
    InsertKeeps(t, w.data, r);
    MapBack(Rows(t, w.data), w.data.nextId, WithKey(t, r, w.data.nextId));
  }

  lemma UpdateUndone(t: Kind, w: World, id: nat, r: Row)
    requires OpOk(t, w, Updates(id, r)) && Consistent(t, w.data) && Benign(t, w, Updates(id, r))
    ensures Sound(t, Step(t, w, Updates(id, r)).data) && Undone(t, w, Step(t, w, Updates(id, r))) == true
  {
    UpdateKeeps(t, w.data, id, r);
    MapBack(Rows(t, w.data), id, r);
  }

  lemma DeleteUndone(t: Kind, w: World, id: nat)
    requires OpOk(t, w, Deletes(id)) && Consistent(t, w.data)
    ensures Sound(t, Step(t, w, Deletes(id)).data) && Undone(t, w, Step(t, w, Deletes(id))) == true
  {
    DeleteKeeps(t, w.data, id);
    if id in Rows(t, w.data) {
      MapBack(Rows(t, w.data), id, Rows(t, w.data)[id]);
    }
  }

  lemma StepUndone(t: Kind, w: World, op: TableOp)
    requires OpOk(t, w, op) && Described(t, w) && Benign(t, w, op)
    ensures Sound(t, Step(t, w, op).data) && Undone(t, w, Step(t, w, op)) == true
  {
    match op
    case Inserts(r) => InsertUndone(t, w, r);
    case Updates(id, r) => UpdateUndone(t, w, id, r);
    case Deletes(id) => DeleteUndone(t, w, id);
    case Elsewhere(rec) =>
  }

  lemma UndoneNext(t: Kind, w: World, w': World, c: nat)
    requires Sound(t, w.data) && Sound(t, w'.data) && Undone(t, w, w') && c <= |w.log|
    ensures UndoneTo(Rows(t, w'.data), w'.log, c, Code(t)) == UndoneTo(Rows(t, w.data), w.log, c, Code(t))
  {
    if w'.log != w.log {
      assert w'.log[..|w'.log| - 1] == w.log;
    }
  }

  /** The images before are enough to go back: taking back all records behind an earlier moment of a run gives the rows of
      that moment. */
  lemma {:induction false} UndoneRows(t: Kind, ws: seq<World>, ops: seq<TableOp>, i: nat, j: nat)
    requires Run(t, ws, ops) && i <= j < |ws| && Described(t, ws[0])
    ensures Described(t, ws[i]) && Described(t, ws[j]) && ws[i].log <= ws[j].log
    ensures UndoneTo(Rows(t, ws[j].data), ws[j].log, |ws[i].log|, Code(t)) == Rows(t, ws[i].data)
    decreases j
  {
    RunDescribed(t, ws, ops, i);
    RunDescribed(t, ws, ops, j);
    if i < j {
      UndoneRows(t, ws, ops, i, j - 1);
      assert RunAt(t, ws[j - 1], ops[j - 1], ws[j]);
      StepUndone(t, ws[j - 1], ops[j - 1]);
      UndoneNext(t, ws[j - 1], ws[j], |ws[i].log|);
    }
  }

  // ---------------------------------------------------------------------------
  // Scans and counts
  // ---------------------------------------------------------------------------

  /** A live row the filter accepts. */
  predicate Wanted(t: Kind, f: Row -> bool, r: Row) {
    RowOk(t, r) && IsLive(t, r) && f(r)
  }

  /** The wanted rows among the first `j` slots of a page. */
  ghost function WantedIn(t: Kind, f: Row -> bool, rows: seq<Row>, j: nat): seq<Row>
    requires j <= |rows|
  {
    if j == 0 then [] else WantedIn(t, f, rows, j - 1) + if Wanted(t, f, rows[j - 1]) then [rows[j - 1]] else []
  }

  /** The wanted rows of the first `i` pages, in slot order. */
  ghost function WantedTo(t: Kind, f: Row -> bool, pages: RowPages, i: nat): seq<Row>
    requires i <= |pages|
  {
    if i == 0 then [] else WantedTo(t, f, pages, i - 1) + WantedIn(t, f, pages[i - 1], |pages[i - 1]|)
  }

  /** `r` is the first `n` elements of `s`, or all of it. */
  ghost predicate IsFirst<T>(r: seq<T>, s: seq<T>, n: nat) {
    |r| <= n && |r| <= |s| && (|r| < n ==> |r| == |s|) && forall i :: 0 <= i < |r| ==> r[i] == s[i]
  }

  ghost predicate Before(p: RecordPtr, i: nat, j: nat) {
    p.pageId < i || (p.pageId == i && p.slotId < j)
  }

  /** The keys of the wanted rows that lie before slot `j` of page `i`. */
  ghost function KeysBefore(t: Kind, d: Data, f: Row -> bool, i: nat, j: nat): set<Key>
    requires Sound(t, d)
  {
    set k | k in d.index && LiveAt(t, d, k) && f(RowIn(d.pages, d.index[k])) && Before(d.index[k], i, j)
  }

  /** What a scan has found when it stands before slot `j` of page `i`. */
  ghost function ScannedTo(t: Kind, d: Data, f: Row -> bool, i: nat, j: nat): seq<Row>
    requires i < |d.pages| && j <= |d.pages[i]|
  {
    WantedTo(t, f, d.pages, i) + WantedIn(t, f, d.pages[i], j)
  }

  lemma KeyNext(t: Kind, d: Data, f: Row -> bool, i: nat, j: nat)
    requires Consistent(t, d) && i < |d.pages| && j < |d.pages[i]|
    ensures var r := d.pages[i][j];
            && RowOk(t, r)
            && (Wanted(t, f, r) ==> KeysBefore(t, d, f, i, j + 1) == KeysBefore(t, d, f, i, j) + {KeyOf(t, r)} && KeyOf(t, r) !in KeysBefore(t, d, f, i, j))
            && (!Wanted(t, f, r) ==> KeysBefore(t, d, f, i, j + 1) == KeysBefore(t, d, f, i, j))
  {
    var p, r := RecordPtr(i, j), d.pages[i][j];
    RowAt(t, d.pages, p);
    assert Has(d.pages, p) && SlotOk(t, d, p) && RowIn(d.pages, p) == r;
    forall k | k in d.index && d.index[k] == p ensures k == KeyOf(t, r) {
      assert EntryTrue(t, d, k);
    }
  }

  /** Before any slot, a scan has found one row for every wanted key there. */
  lemma {:induction false} ScannedCount(t: Kind, d: Data, f: Row -> bool, i: nat, j: nat)
    requires Consistent(t, d) && i < |d.pages| && j <= |d.pages[i]|
    ensures |ScannedTo(t, d, f, i, j)| == |KeysBefore(t, d, f, i, j)|
    decreases i, j
  {
    if j > 0 {
      ScannedCount(t, d, f, i, j - 1);
      KeyNext(t, d, f, i, j - 1);
    } else if i > 0 {
      ScannedCount(t, d, f, i - 1, |d.pages[i - 1]|);
      forall k | k in d.index ensures Before(d.index[k], i, 0) <==> Before(d.index[k], i - 1, |d.pages[i - 1]|) {
        assert Has(d.pages, d.index[k]);
      }
      assert KeysBefore(t, d, f, i, 0) == KeysBefore(t, d, f, i - 1, |d.pages[i - 1]|);
    } else {
      assert KeysBefore(t, d, f, 0, 0) == {};
    }
  }

  ghost function WantedKeys(t: Kind, d: Data, f: Row -> bool): set<Key>
    requires Sound(t, d)
  {
    set k | k in Rows(t, d) && f(Rows(t, d)[k])
  }

  /** A full scan lists one row for every row of the table that the filter accepts. */
  lemma ScanCounts(t: Kind, d: Data, f: Row -> bool)
    requires Consistent(t, d)
    ensures |WantedTo(t, f, d.pages, |d.pages|)| == |WantedKeys(t, d, f)|
  {
    var n := |d.pages|;
    if n > 0 {
      ScannedCount(t, d, f, n - 1, |d.pages[n - 1]|);
      forall k | k in d.index ensures Before(d.index[k], n - 1, |d.pages[n - 1]|) {
        assert Has(d.pages, d.index[k]);
      }
      forall k ensures k in KeysBefore(t, d, f, n - 1, |d.pages[n - 1]|) <==> k in WantedKeys(t, d, f) {
        if k in Rows(t, d) {
          assert Rows(t, d)[k] == RowIn(d.pages, d.index[k]);
        }
      }
      assert KeysBefore(t, d, f, n - 1, |d.pages[n - 1]|) == WantedKeys(t, d, f);
    } else {
      forall k ensures k !in d.index && k !in Rows(t, d) {
        assert k in d.index ==> Has(d.pages, d.index[k]);
      }
      assert WantedKeys(t, d, f) == {};
    }
  }

  /** Counting live slots counts the rows of the table. */
  lemma CountCounts(t: Kind, d: Data)
    requires Consistent(t, d)
    ensures |WantedTo(t, r => true, d.pages, |d.pages|)| == |Rows(t, d)|
  {
    ScanCounts(t, d, r => true);
    assert WantedKeys(t, d, r => true) == Rows(t, d).Keys;
  }

  lemma {:induction false} InWanted(t: Kind, f: Row -> bool, rows: seq<Row>, j: nat, r: Row)
    requires j <= |rows|
    ensures r in WantedIn(t, f, rows, j) <==> Wanted(t, f, r) && exists x :: 0 <= x < j && rows[x] == r
    decreases j
  {
    if j > 0 {
      InWanted(t, f, rows, j - 1, r);
    }
  }

  lemma {:induction false} InScan(t: Kind, f: Row -> bool, pages: RowPages, i: nat, r: Row)
    requires i <= |pages|
    ensures r in WantedTo(t, f, pages, i) <==> Wanted(t, f, r) && exists p :: Has(pages, p) && p.pageId < i && RowIn(pages, p) == r
    decreases i
  {
    if i > 0 {
      InScan(t, f, pages, i - 1, r);
      var rows := pages[i - 1];
      InWanted(t, f, rows, |rows|, r);
      if Wanted(t, f, r) && exists x :: 0 <= x < |rows| && rows[x] == r {
        var x :| 0 <= x < |rows| && rows[x] == r;
        assert Has(pages, RecordPtr(i - 1, x)) && RowIn(pages, RecordPtr(i - 1, x)) == r;
      }
    }
  }

  /** A full scan finds exactly the rows of the table that the filter accepts. */
  lemma ScanFinds(t: Kind, d: Data, f: Row -> bool, r: Row)
    requires Consistent(t, d)
    ensures r in WantedTo(t, f, d.pages, |d.pages|) <==> f(r) && r in Rows(t, d).Values
  {
    InScan(t, f, d.pages, |d.pages|, r);
    if r in WantedTo(t, f, d.pages, |d.pages|) {
      var p :| Has(d.pages, p) && RowIn(d.pages, p) == r;
      assert SlotOk(t, d, p);
      assert Rows(t, d)[KeyOf(t, r)] == r;
    }
    if f(r) && r in Rows(t, d).Values {
      var k :| k in Rows(t, d) && Rows(t, d)[k] == r;
      assert Has(d.pages, d.index[k]);
      RowAt(t, d.pages, d.index[k]);
    }
  }

  /** Every row found is a row of the table that the filter accepts; there are as many as the table has, or `max`; and
      when there are fewer than `max`, every row the filter accepts is found. */
  ghost predicate ScanRight(t: Kind, d: Data, f: Row -> bool, results: seq<Row>, max: nat)
    requires Sound(t, d)
  {
    && |results| == (if |WantedKeys(t, d, f)| < max then |WantedKeys(t, d, f)| else max)
    && (forall i :: 0 <= i < |results| ==> f(results[i]) && results[i] in Rows(t, d).Values)
    && (|results| < max ==> forall r :: r in Rows(t, d).Values && f(r) ==> r in results)
  }

  lemma ScanIsRight(t: Kind, d: Data, f: Row -> bool, results: seq<Row>, max: nat)
    requires Consistent(t, d) && IsFirst(results, WantedTo(t, f, d.pages, |d.pages|), max)
    ensures ScanRight(t, d, f, results, max)
  {
    var all := WantedTo(t, f, d.pages, |d.pages|);
    ScanCounts(t, d, f);
    forall i | 0 <= i < |results| ensures f(results[i]) && results[i] in Rows(t, d).Values {
      assert results[i] == all[i] && all[i] in all;
      ScanFinds(t, d, f, results[i]);
    }
    if |results| < max {
      assert results == all;
      forall r | r in Rows(t, d).Values && f(r) ensures r in results {
        ScanFinds(t, d, f, r);
      }
    }
  }

  // ---------------------------------------------------------------------------
  // Opening a table again
  // ---------------------------------------------------------------------------

  function Max(a: int, b: int): int {
    if a > b then a else b
  }

  /** The largest key in the first `j` slots of a page, or `low`. */
  ghost function MaxIn(t: Kind, rows: seq<Row>, j: nat, low: int): int
    requires j <= |rows| && forall x :: 0 <= x < |rows| ==> RowOk(t, rows[x])
  {
    if j == 0 then low else Max(MaxIn(t, rows, j - 1, low), KeyOf(t, rows[j - 1]))
  }

  /** The largest key on the first `i` pages, or 0. */
  ghost function MaxTo(t: Kind, pages: RowPages, i: nat): int
    requires PagesOk(t, pages) && i <= |pages|
  {
    if i == 0 then 0 else
      assert PageRows(t, pages, i - 1);
      MaxIn(t, pages[i - 1], |pages[i - 1]|, MaxTo(t, pages, i - 1))
  }

  lemma {:induction false} MaxInIs(t: Kind, rows: seq<Row>, j: nat, low: int)
    requires j <= |rows| && forall x :: 0 <= x < |rows| ==> RowOk(t, rows[x])
    ensures var m := MaxIn(t, rows, j, low);
            && m >= low && (forall x :: 0 <= x < j ==> KeyOf(t, rows[x]) <= m)
            && (m == low || exists x :: 0 <= x < j && KeyOf(t, rows[x]) == m)
    decreases j
  {
    if j > 0 {
      MaxInIs(t, rows, j - 1, low);
    }
  }

  ghost predicate IsMax(t: Kind, pages: RowPages, i: nat, m: int)
    requires PagesOk(t, pages)
  {
    && m >= 0
    && (forall p: RecordPtr :: Has(pages, p) && p.pageId < i ==> KeyAt(t, pages, p) <= m)
    && (m == 0 || exists p: RecordPtr :: Has(pages, p) && KeyAt(t, pages, p) == m)
  }

  ghost function KeyAt(t: Kind, pages: RowPages, p: RecordPtr): int
    requires PagesOk(t, pages) && Has(pages, p)
  {
    RowAt(t, pages, p);
    KeyOf(t, RowIn(pages, p))
  }

  lemma {:induction false} MaxToIs(t: Kind, pages: RowPages, i: nat)
    requires PagesOk(t, pages) && i <= |pages|
    ensures IsMax(t, pages, i, MaxTo(t, pages, i))
    decreases i
  {
    if i > 0 {
      MaxToIs(t, pages, i - 1);
      var rows, low, m := pages[i - 1], MaxTo(t, pages, i - 1), MaxTo(t, pages, i);
      assert PageRows(t, pages, i - 1);
      MaxInIs(t, rows, |rows|, low);
      if m != low {
        var x :| 0 <= x < |rows| && KeyOf(t, rows[x]) == m;
        var p := RecordPtr(i - 1, x);
        assert Has(pages, p) && KeyAt(t, pages, p) == m;
      }
    }
  }

  /** The scan of table_open finds the id given out last: a table that is opened again goes on with the next id. */
  lemma MaxIsLast(t: Kind, d: Data)
    requires Consistent(t, d)
    ensures MaxTo(t, d.pages, |d.pages|) + 1 == d.nextId
  {
    var m := MaxTo(t, d.pages, |d.pages|);
    MaxToIs(t, d.pages, |d.pages|);
    if d.nextId > 1 {
      var p :| Has(d.pages, p) && Carries(t, d, p, d.nextId - 1);
      assert KeyAt(t, d.pages, p) == d.nextId - 1 <= m;
    }
    if m != 0 {
      var q :| Has(d.pages, q) && KeyAt(t, d.pages, q) == m;
      assert SlotOk(t, d, q);
    }
  }
}
