// Requests and answers in runs of any interleaving: what a thread does to the books is what its request asked for, wholly if
// it answers Ok and not at all otherwise, and a booking answered Ok had found its event active.
module BookingAnswers {
  import opened BookingModel
  import opened BookingSafety
  import opened BookingRefinement
  import S = BookingSeats
  import opened Common

  /** The atomic steps of thread `t` in a run. */
  ghost function OwnEffects(s: State, ms: seq<Move>, t: Tid): seq<Effect>
    requires Runs(s, ms)
    decreases |ms|
  {
    if ms == [] then [] else OwnEffect(s, ms[0], t) + OwnEffects(Moved(s, ms[0]), ms[1..], t)
  }

  ghost function OwnEffect(s: State, m: Move, t: Tid): seq<Effect>
    requires CanMove(s, m)
  {
    if m == Acts(t) && EffectOf(s, m) != Nothing then [EffectOf(s, m)] else []
  }

  /** The request has had its one effect. */
  ghost predicate Fulfilled(q: Request, done: seq<Effect>) {
    match q
    case BookReq(user, event, seats) => exists id :: done == [Books(id, user, event, Sorted(seats))]
    case CancelReq(booking, user) => done == [Cancels(booking, user)]
    case CreateReq(rows, cols) => |done| == rows * cols && exists event :: AllOf(event, done)
  }

  ghost predicate AllOf(event: Id, done: seq<Effect>) {
    forall i :: 0 <= i < |done| ==> done[i].Adds? && done[i].event == event
  }

  /** Where a thread stands with its request, and what it has done so far. */
  ghost predicate Stands(th: Thread, q: Request, done: seq<Effect>) {
    match th
    case Book(j) =>
      && q.BookReq? && done == [] && j.user == q.user && j.event == q.event
      && j.seats == if j.pc == BkEvent || j.pc == BkBegin then q.seats else Sorted(q.seats)
    case Cancel(j) =>
      && q.CancelReq? && j.id == q.booking && j.user == q.user
      && done == if j.pc == CnCommit then [Cancels(q.booking, q.user)] else []
    case Create(event, rows, cols, made) =>
      q.CreateReq? && rows == q.rows && cols == q.cols && |done| == made <= rows * cols && AllOf(event, done)
    case Release(_, r) => Answers(q, r, done)
    case Done(r) => Answers(q, r, done)
  }

  /** All or nothing. */
  ghost predicate Answers(q: Request, r: Result, done: seq<Effect>) {
    if r == Ok then Fulfilled(q, done) else done == []
  }

  lemma BookStands(s: State, t: Tid, q: Request)
    requires Enabled(s, t) && s.threads[t].Book? && Stands(s.threads[t], q, [])
    ensures t in ActBook(s, t).threads && Stands(ActBook(s, t).threads[t], q, OwnEffect(s, Acts(t), t)) == true
  {
    var pc := s.threads[t].b.pc;
    if pc == BkCommit {
      CommitStands(s, t, q);
    } else if pc in {BkEvent, BkBegin} {
      BookStandsEarly(s, t, q);
    } else if pc in {BkLock, BkCheck, BkInsert} {
      BookStandsMiddle(s, t, q);
    } else if pc in {BkRow, BkRead} {
      BookStandsLate(s, t, q);
    } else {
      MarkStands(s, t, q);
    }
  }

  lemma BookStandsEarly(s: State, t: Tid, q: Request)
    requires t in s.threads && s.threads[t].Book? && s.threads[t].b.pc in {BkEvent, BkBegin}
    requires Enabled(s, t) && s.threads[t].Book? && Stands(s.threads[t], q, [])
    ensures t in ActBook(s, t).threads && Stands(ActBook(s, t).threads[t], q, OwnEffect(s, Acts(t), t)) == true
  {
  }

  lemma BookStandsMiddle(s: State, t: Tid, q: Request)
    requires t in s.threads && s.threads[t].Book? && s.threads[t].b.pc in {BkLock, BkCheck, BkInsert}
    requires Enabled(s, t) && s.threads[t].Book? && Stands(s.threads[t], q, [])
    ensures t in ActBook(s, t).threads && Stands(ActBook(s, t).threads[t], q, OwnEffect(s, Acts(t), t)) == true
  {
  }

  lemma BookStandsLate(s: State, t: Tid, q: Request)
    requires t in s.threads && s.threads[t].Book? && s.threads[t].b.pc in {BkRow, BkRead}
    requires Enabled(s, t) && s.threads[t].Book? && Stands(s.threads[t], q, [])
    ensures t in ActBook(s, t).threads && Stands(ActBook(s, t).threads[t], q, OwnEffect(s, Acts(t), t)) == true
  {
  }

  lemma MarkStands(s: State, t: Tid, q: Request)
    requires t in s.threads && s.threads[t].Book? && s.threads[t].b.pc == BkMark
    requires Enabled(s, t) && Stands(s.threads[t], q, [])
    ensures t in ActBook(s, t).threads && Stands(ActBook(s, t).threads[t], q, OwnEffect(s, Acts(t), t)) == true
  {
  }

  lemma CommitStands(s: State, t: Tid, q: Request)
    requires Enabled(s, t) && s.threads[t].Book? && s.threads[t].b.pc == BkCommit && Stands(s.threads[t], q, [])
    ensures ActBook(s, t).threads[t] == Release(Seats(s.threads[t].b.seats), Ok) && Fulfilled(q, OwnEffect(s, Acts(t), t)) == true
  {
    var j := s.threads[t].b;
    assert OwnEffect(s, Acts(t), t) == [Books(j.id, q.user, q.event, Sorted(q.seats))];
  }

  lemma CancelStands(s: State, t: Tid, q: Request, done: seq<Effect>)
    requires Enabled(s, t) && s.threads[t].Cancel? && Stands(s.threads[t], q, done)
    ensures t in ActCancel(s, t).threads && Stands(ActCancel(s, t).threads[t], q, done + OwnEffect(s, Acts(t), t)) == true
  {
    AppendNothing(done);
    AppendNothing([Cancels(q.booking, q.user)]);
    match s.threads[t].c.pc {
      case CnBegin =>
      case CnLock =>
      case CnFind =>
      case CnScan =>
      case CnSeatLock =>
      case CnRead =>
      case CnFree =>
      case CnMark =>
      case CnCommit =>
    }
  }

  lemma CreateStands(s: State, t: Tid, q: Request, done: seq<Effect>)
    requires Enabled(s, t) && s.threads[t].Create? && Stands(s.threads[t], q, done)
    ensures t in ActCreate(s, t).threads && Stands(ActCreate(s, t).threads[t], q, done + OwnEffect(s, Acts(t), t)) == true
  {
    AppendNothing(done);
    var th := s.threads[t];
    if th.made >= th.rows * th.cols {
      assert AllOf(th.event, done);
    }
  }

  lemma OwnStep(s: State, t: Tid, q: Request, done: seq<Effect>)
    requires Enabled(s, t) && Stands(s.threads[t], q, done)
    ensures t in Act(s, t).threads && Stands(Act(s, t).threads[t], q, done + OwnEffect(s, Acts(t), t)) == true
  {
    AppendNothing(done);
    match s.threads[t]
    case Book(_) =>
      BookStands(s, t, q);
      AppendNothing(OwnEffect(s, Acts(t), t));
    case Cancel(_) => CancelStands(s, t, q, done);
    case Create(_, _, _, _) => CreateStands(s, t, q, done);
    case Release(_, _) =>
  }

  /** Nobody else touches a thread's own place. */
  lemma OthersStep(s: State, m: Move, t: Tid)
    requires CanMove(s, m) && m != Acts(t) && t in s.threads
    ensures t in Moved(s, m).threads && Moved(s, m).threads[t] == s.threads[t]
  {
    if m.Acts? {
      OthersAct(s, m.t, t);
    }
  }

  lemma OthersAct(s: State, u: Tid, t: Tid)
    requires Enabled(s, u) && u != t && t in s.threads
    ensures t in Act(s, u).threads && Act(s, u).threads[t] == s.threads[t]
  {
    match s.threads[u]
    case Book(_) => S.BookKeepsThreads(s, u);
    case Cancel(_) => S.CancelKeepsThreads(s, u);
    case Create(_, _, _, _) =>
    case Release(_, _) =>
  }

  lemma {:induction false} RunStands(s: State, ms: seq<Move>, t: Tid, q: Request, done: seq<Effect>)
    requires Runs(s, ms) && t in s.threads && Stands(s.threads[t], q, done)
    ensures t in After(s, ms).threads && Stands(After(s, ms).threads[t], q, done + OwnEffects(s, ms, t))
    decreases |ms|
  {
    AppendNothing(done);
    if ms != [] {
      if ms[0] == Acts(t) {
        OwnStep(s, t, q, done);
      } else {
        OthersStep(s, ms[0], t);
      }
      var own := OwnEffect(s, ms[0], t);
      RunStands(Moved(s, ms[0]), ms[1..], t, q, done + own);
      AppendAssoc(done, own, OwnEffects(Moved(s, ms[0]), ms[1..], t));
    }
  }

  /** From its arrival on, whatever else runs, a request answered Ok has had exactly its one effect on the books, for the user,
      event, seats or booking it named, and a request answered otherwise has had none. */
  lemma AllOrNothing(s: State, t: Tid, q: Request, ms: seq<Move>)
    requires t !in s.threads && Runs(Arrive(s, t, q), ms) && t in After(Arrive(s, t, q), ms).threads
    requires After(Arrive(s, t, q), ms).threads[t].Done?
    ensures var done := OwnEffects(Arrive(s, t, q), ms, t);
            if After(Arrive(s, t, q), ms).threads[t].result == Ok then Fulfilled(q, done) else done == []
  {
    RunStands(Arrive(s, t, q), ms, t, q, []);
    AppendNothing(OwnEffects(Arrive(s, t, q), ms, t));
  }

  // ---------------------------------------------------------------------------
  // The event lookup
  // ---------------------------------------------------------------------------

  /** A booking for this event that has not looked it up yet. */
  ghost predicate BeforeLookup(th: Thread, event: Id) {
    th.Book? && th.b.pc == BkEvent && th.b.event == event
  }

  ghost predicate EventActive(s: State, event: Id) {
    event in s.events && s.events[event]
  }

  /** The lookup lets a booking pass if and only if its event is there and active, and otherwise says which of the two failed. */
  lemma LookupExactly(s: State, t: Tid, event: Id)
    requires Enabled(s, t) && BeforeLookup(s.threads[t], event)
    ensures t in Act(s, t).threads
    ensures var th := Act(s, t).threads[t];
            && (th.Book? <==> EventActive(s, event))
            && (!EventActive(s, event) ==> th == Done(if event in s.events then Generic else NotFound))
            && Act(s, t) == s.(threads := s.threads[t := th])
  {
  }

  lemma {:induction false} RunsPrefix(s: State, ms: seq<Move>, i: nat)
    requires Runs(s, ms) && i <= |ms|
    ensures Runs(s, ms[..i])
    decreases i
  {
    if i > 0 {
      RunsPrefix(Moved(s, ms[0]), ms[1..], i - 1);
      assert ms[..i][0] == ms[0] && ms[..i][1..] == ms[1..][..i - 1];
    }
  }

  /** A booking that was answered Ok has found its event there and active at some moment of the run. */
  lemma {:induction false} OkSawEvent(s: State, ms: seq<Move>, t: Tid, event: Id) returns (i: nat)
    requires Runs(s, ms) && t in s.threads && BeforeLookup(s.threads[t], event)
    requires t in After(s, ms).threads && After(s, ms).threads[t] == Done(Ok)
    ensures i < |ms| && ms[i] == Acts(t) && Runs(s, ms[..i])
    ensures var si := After(s, ms[..i]); t in si.threads && BeforeLookup(si.threads[t], event) && EventActive(si, event)
    decreases |ms|
  {
    if ms[0] == Acts(t) {
      i := 0;
      LookupExactly(s, t, event);
      if !EventActive(s, event) {
        StaysDone(Moved(s, ms[0]), ms[1..], t);
      }
    } else {
      OthersStep(s, ms[0], t);
      var k := OkSawEvent(Moved(s, ms[0]), ms[1..], t, event);
      i := k + 1;
      assert ms[..i][0] == ms[0] && ms[..i][1..] == ms[1..][..k];
    }
  }

  /** An answer is final. */
  lemma {:induction false} StaysDone(s: State, ms: seq<Move>, t: Tid)
    requires Runs(s, ms) && t in s.threads && s.threads[t].Done?
    ensures t in After(s, ms).threads && After(s, ms).threads[t] == s.threads[t]
    decreases |ms|
  {
    if ms != [] {
      assert ms[0] != Acts(t);
      OthersStep(s, ms[0], t);
      StaysDone(Moved(s, ms[0]), ms[1..], t);
    }
  }

  // ---------------------------------------------------------------------------
  // Events
  // ---------------------------------------------------------------------------

  lemma ActKeepsEvents(s: State, t: Tid)
    requires Enabled(s, t)
    ensures Act(s, t).events == s.events && Act(s, t).nextEvent == s.nextEvent
  {
    match s.threads[t]
    case Book(_) => BookLeavesEvents(s, t);
    case Cancel(_) => CancelLeavesEvents(s, t);
    case Create(_, _, _, _) =>
    case Release(_, _) =>
  }

  lemma BookLeavesEvents(s: State, t: Tid)
    requires t in s.threads && s.threads[t].Book?
    ensures ActBook(s, t).events == s.events && ActBook(s, t).nextEvent == s.nextEvent
  {
    match s.threads[t].b.pc {
      case BkEvent =>
      case BkBegin =>
      case BkLock =>
      case BkCheck =>
      case BkInsert =>
      case BkRow =>
      case BkRead =>
      case BkMark =>
      case BkCommit =>
    }
  }

  lemma CancelLeavesEvents(s: State, t: Tid)
    requires t in s.threads && s.threads[t].Cancel?
    ensures ActCancel(s, t).events == s.events && ActCancel(s, t).nextEvent == s.nextEvent
  {
    match s.threads[t].c.pc {
      case CnBegin =>
      case CnLock =>
      case CnFind =>
      case CnScan =>
      case CnSeatLock =>
      case CnRead =>
      case CnFree =>
      case CnMark =>
      case CnCommit =>
    }
  }

  ghost predicate SameBut(f: map<Id, bool>, g: map<Id, bool>, e: Id) {
    forall x :: x != e ==> (x in f <==> x in g) && (x in f ==> f[x] == g[x])
  }

  /** Only creating an event within bounds, switching one and deleting one change the events: a new one is active under the
      next number, a deleted one is gone, no other is touched. Switching and deleting change nothing else. */
  lemma EventsExactly(s: State, m: Move)
    requires CanMove(s, m)
    ensures var s' := Moved(s, m);
            match m
            case EventGone(e) => e !in s'.events && SameBut(s.events, s'.events, e) && s' == s.(events := s'.events)
            case EventSet(e, active) =>
              e in s'.events && s'.events[e] == active && SameBut(s.events, s'.events, e) && s' == s.(events := s'.events)
            case Arrives(t, q) =>
              if q.CreateReq? && 1 <= q.rows <= 26 && 1 <= q.cols <= 100 then
                && s.nextEvent in s'.events && s'.events[s.nextEvent] && SameBut(s.events, s'.events, s.nextEvent)
                && s'.nextEvent == s.nextEvent + 1
              else s'.events == s.events && s'.nextEvent == s.nextEvent
            case Acts(t) => s'.events == s.events && s'.nextEvent == s.nextEvent
  {
    if m.Acts? {
      ActKeepsEvents(s, m.t);
    }
  }

  /** An event that has been deleted stays so. */
  lemma {:induction false} StaysGone(s: State, ms: seq<Move>, i: nat, event: Id)
    requires Runs(s, ms) && i <= |ms| && event !in s.events && event < s.nextEvent
    ensures Runs(s, ms[..i]) && event !in After(s, ms[..i]).events
    decreases |ms|
  {
    if i > 0 {
      EventsExactly(s, ms[0]);
      StaysGone(Moved(s, ms[0]), ms[1..], i - 1, event);
      assert ms[..i][0] == ms[0] && ms[..i][1..] == ms[1..][..i - 1];
    }
  }

  /** Whatever else runs, no booking for a deleted event that is still before its lookup is ever answered Ok. */
  lemma GoneIsRefused(s: State, ms: seq<Move>, t: Tid, event: Id)
    requires Runs(s, ms) && event !in s.events && event < s.nextEvent
    requires t in s.threads && BeforeLookup(s.threads[t], event)
    ensures t in After(s, ms).threads ==> After(s, ms).threads[t] != Done(Ok)
  {
    if t in After(s, ms).threads && After(s, ms).threads[t] == Done(Ok) {
      var i := OkSawEvent(s, ms, t, event);
      StaysGone(s, ms, i, event);
      assert false;
    }
  }

  // ---------------------------------------------------------------------------
  // Slots of the transaction manager
  // ---------------------------------------------------------------------------

  /** Whether this step of the thread begins a transaction, or ends one by a commit or an abort. */
  ghost predicate Begins(th: Thread, th': Thread) {
    (th.Book? && th.b.pc == BkBegin && th'.Book?) || (th.Cancel? && th.c.pc == CnBegin && th'.Cancel?)
  }

  ghost predicate Ends(th: Thread, th': Thread) {
    (th.Book? || th.Cancel?) && th'.Release?
  }

  /** A thread has a slot from the step that begins its transaction to the step that commits or aborts it. */
  lemma SlotFromTo(s: State, t: Tid)
    requires Enabled(s, t)
    ensures t in Act(s, t).threads
    ensures var th, th' := s.threads[t], Act(s, t).threads[t];
            InTxn(th') <==> (InTxn(th) && !Ends(th, th')) || Begins(th, th')
  {
    match s.threads[t]
    case Book(_) => BookSlot(s, t);
    case Cancel(_) => CancelSlot(s, t);
    case Create(_, _, _, _) =>
    case Release(_, _) =>
  }

  lemma BookSlot(s: State, t: Tid)
    requires Enabled(s, t) && s.threads[t].Book?
    ensures t in ActBook(s, t).threads
    ensures var th, th' := s.threads[t], ActBook(s, t).threads[t]; InTxn(th') <==> (InTxn(th) && !Ends(th, th')) || Begins(th, th')
  {
    var pc := s.threads[t].b.pc;
    if pc in {BkEvent, BkBegin} {
      BookSlotEarly(s, t);
    } else if pc in {BkLock, BkCheck, BkInsert} {
      BookSlotMiddle(s, t);
    } else {
      BookSlotLate(s, t);
    }
  }

  lemma BookSlotEarly(s: State, t: Tid)
    requires t in s.threads && s.threads[t].Book? && s.threads[t].b.pc in {BkEvent, BkBegin}
    ensures t in ActBook(s, t).threads
    ensures var th, th' := s.threads[t], ActBook(s, t).threads[t]; InTxn(th') <==> (InTxn(th) && !Ends(th, th')) || Begins(th, th')
  {
  }

  lemma BookSlotMiddle(s: State, t: Tid)
    requires t in s.threads && s.threads[t].Book? && s.threads[t].b.pc in {BkLock, BkCheck, BkInsert}
    ensures t in ActBook(s, t).threads
    ensures var th, th' := s.threads[t], ActBook(s, t).threads[t]; InTxn(th') <==> (InTxn(th) && !Ends(th, th')) || Begins(th, th')
  {
  }

  lemma BookSlotLate(s: State, t: Tid)
    requires t in s.threads && s.threads[t].Book? && s.threads[t].b.pc in {BkRow, BkRead, BkMark, BkCommit}
    ensures t in ActBook(s, t).threads
    ensures var th, th' := s.threads[t], ActBook(s, t).threads[t]; InTxn(th') <==> (InTxn(th) && !Ends(th, th')) || Begins(th, th')
  {
  }

  lemma CancelSlot(s: State, t: Tid)
    requires Enabled(s, t) && s.threads[t].Cancel?
    ensures t in ActCancel(s, t).threads
    ensures var th, th' := s.threads[t], ActCancel(s, t).threads[t]; InTxn(th') <==> (InTxn(th) && !Ends(th, th')) || Begins(th, th')
  {
    var pc := s.threads[t].c.pc;
    if pc in {CnBegin, CnLock, CnFind, CnScan} {
      CancelSlotEarly(s, t);
    } else {
      CancelSlotLate(s, t);
    }
  }

  lemma CancelSlotEarly(s: State, t: Tid)
    requires t in s.threads && s.threads[t].Cancel? && s.threads[t].c.pc in {CnBegin, CnLock, CnFind, CnScan}
    ensures t in ActCancel(s, t).threads
    ensures var th, th' := s.threads[t], ActCancel(s, t).threads[t]; InTxn(th') <==> (InTxn(th) && !Ends(th, th')) || Begins(th, th')
  {
  }

  lemma CancelSlotLate(s: State, t: Tid)
    requires t in s.threads && s.threads[t].Cancel? && s.threads[t].c.pc in {CnSeatLock, CnRead, CnFree, CnMark, CnCommit}
    ensures t in ActCancel(s, t).threads
    ensures var th, th' := s.threads[t], ActCancel(s, t).threads[t]; InTxn(th') <==> (InTxn(th) && !Ends(th, th')) || Begins(th, th')
  {
  }

  /** A transaction is refused if and only if 128 others have their slots. */
  lemma SlotRefusedExactly(s: State, t: Tid)
    requires Enabled(s, t) && ((s.threads[t].Book? && s.threads[t].b.pc == BkBegin) || (s.threads[t].Cancel? && s.threads[t].c.pc == CnBegin))
    ensures t in Act(s, t).threads
    ensures Act(s, t).threads[t] == Done(Generic) <==> |Active(s)| >= 128
  {
  }
}
