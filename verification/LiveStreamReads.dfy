/**
 What the calls of `next_chunk` are told, over every interleaving: exactly what the network
 delivered, in order, until the stream ends, fails or is closed.  The iterators read a `Source`;
 that the protocol keeps a source's promise is the last result here.
 */
module LiveStreamReads {
  import opened Prelude
  import opened LiveStreamProtocol
  import NetworkSource

  /** A poll of the stream that the network answers. */
  predicate Delivers(s: State, e: Event) {
    e.Advance? && At(s, e.t).PollStream? && e.polled != Pending
  }

  /** What the network delivered in a run, in order: read off its events, whatever the readers made of it. */
  function Delivered(run: seq<Event>): (polls: seq<Polled>)
    ensures Pending !in polls
  {
    if run == [] then []
    else
      var before, last := Execute(INIT, run[..|run| - 1]), run[|run| - 1];
      Delivered(run[..|run| - 1]) + if before.Some? && Delivers(before.value, last) then [last.polled] else []
  }

  /** `next_chunk` passes bytes on, and tells an end from a failure. */
  function Reported(polled: Polled): Outcome
    requires polled != Pending
  {
    match polled
    case Chunk(bytes) => Ok(Some(bytes))
    case Failed => Err(NetworkSource.TransportFailed)
    case End => Ok(None)
  }

  function Reports(polls: seq<Polled>): (outcomes: seq<Outcome>)
    requires Pending !in polls
    ensures |outcomes| == |polls| && forall i | 0 <= i < |polls| :: outcomes[i] == Reported(polls[i])
  {
    if polls == [] then []
    else Reports(polls[..|polls| - 1]) + [Reported(polls[|polls| - 1])]
  }

  /** The answers other than that the stream is closed. */
  function Told(results: seq<Answer>): seq<Outcome> {
    if results == [] then []
    else
      var last := results[|results| - 1].outcome;
      Told(results[..|results| - 1]) + if last == Err(NetworkSource.StreamClosed) then [] else [last]
  }

  predicate Refusal(r: Answer) {
    r.outcome == Err(NetworkSource.StreamClosed)
  }

  predicate IsChunk(o: Outcome) {
    o.Ok? && o.value.Some?
  }

  predicate AllChunks(outcomes: seq<Outcome>) {
    forall i | 0 <= i < |outcomes| :: IsChunk(outcomes[i])
  }

  // ---------------------------------------------------------------- one step

  predicate InNext(pc: Pc) {
    pc.WantLock? || pc.CheckOpen? || pc.LookInSlot? || pc.PollSignal? || pc.PollStream? || pc.Parked?
  }

  /** The step by which a call of `next_chunk` returns. */
  predicate Leaves(s: State, e: Event) {
    e.Advance? && InNext(At(s, e.t)) && At(Apply(s, e), e.t) == Idle
  }

  /** What one step tells. */
  predicate Tells(s: State, e: Event, s': State) {
    && (At(s', e.t) != Idle || !InNext(At(s, e.t)) || !e.Advance? ==> s'.results == s.results)
    && (Leaves(s, e) ==>
          && |s'.results| == |s.results| + 1 && s'.results[..|s.results|] == s.results
          && var last := s'.results[|s.results|];
             && last.closed == s.closed
             && (Delivers(s, e) ==> last.outcome == Reported(e.polled))
             && (!Delivers(s, e) ==> Refusal(last) && (s.closed || !s.streamOpen))
             && (!IsChunk(last.outcome) ==> !s'.streamOpen || At(s, e.t).CheckOpen?))
    && (Delivers(s, e) ==> Leaves(s, e) && s'.streamOpen == (s.streamOpen && e.polled.Chunk?))
    && (!Delivers(s, e) ==> s'.streamOpen == s.streamOpen || (s.closed && !s'.streamOpen))
    && (s.closed ==> s'.closed)
  }

  lemma ReturnTells(s: State, after: State, t: Tid, late: bool, outcome: Outcome)
    requires after.results == s.results && after.closed == s.closed && after.threads == s.threads
    ensures var s' := Return(after, t, late, outcome);
            && At(s', t) == Idle && s'.streamOpen == after.streamOpen && s'.closed == s.closed
            && s'.results == s.results + [Answer(late, s.closed, outcome)]
  {
  }

  lemma PollTells(s: State, t: Tid, polled: Polled)
    requires At(s, t).PollStream?
    ensures Tells(s, Advance(t, polled), Access(s, t, polled))
  {
    if polled != Pending {
      ReturnTells(s, if polled.Chunk? then s else s.(streamOpen := false), t, At(s, t).late, Reported(polled));
    }
    hide Return;
  }

  lemma LookTells(s: State, t: Tid, polled: Polled)
    requires At(s, t).CheckOpen? || At(s, t).LookInSlot?
    ensures Tells(s, Advance(t, polled), Access(s, t, polled))
  {
    ReturnTells(s, s, t, At(s, t).late, GOT_CLOSED);
    hide Return;
  }

  lemma SignalTells(s: State, t: Tid, polled: Polled)
    requires At(s, t).PollSignal? && (WillWake(s, t) ==> s.closed)
    ensures Tells(s, Advance(t, polled), Access(s, t, polled))
  {
    if WillWake(s, t) {
      SignalReturns(s, t, polled);
    } else {
      Registers(s, t, polled);
    }
    hide Access;
  }

  lemma SignalReturns(s: State, t: Tid, polled: Polled)
    requires At(s, t).PollSignal? && WillWake(s, t)
    ensures var s' := Access(s, t, polled);
            && At(s', t) == Idle && !s'.streamOpen && s'.closed == s.closed
            && s'.results == s.results + [Answer(At(s, t).late, s.closed, GOT_CLOSED)]
  {
    if Woken(s, t) {
      ReturnTells(s, s.(waiter := None, streamOpen := false), t, At(s, t).late, GOT_CLOSED);
    } else {
      ReturnTells(s, s.(permit := false, streamOpen := false), t, At(s, t).late, GOT_CLOSED);
    }
    hide Return;
  }

  lemma Registers(s: State, t: Tid, polled: Polled)
    requires At(s, t).PollSignal? && !WillWake(s, t)
    ensures var s' := Access(s, t, polled);
            && Quiet(s, t, s', PollStream(At(s, t).late)) && s'.closed == s.closed
            && Enabled(s', Advance(t, polled))
  {
  }

  /** A step that neither tells anything nor touches the stream, and goes on to `next`. */
  predicate Quiet(s: State, t: Tid, s': State, next: Pc) {
    s'.results == s.results && s'.streamOpen == s.streamOpen && (s.closed ==> s'.closed) && At(s', t) == next
  }

  lemma TakesLockQuietly(s: State, t: Tid, polled: Polled)
    requires Waits(At(s, t))
    ensures Quiet(s, t, Access(s, t, polled),
                  if At(s, t).WantLock? then CheckOpen(At(s, t).late) else DropStream)
  {
    hide Leave;
  }

  lemma WakesQuietly(s: State, t: Tid, polled: Polled)
    requires At(s, t).Parked?
    ensures Quiet(s, t, Access(s, t, polled), PollSignal(At(s, t).late))
  {
  }

  lemma ClosesQuietly(s: State, t: Tid, polled: Polled)
    requires At(s, t).StoreClosed? || At(s, t).CloserArrives?
    ensures Quiet(s, t, Access(s, t, polled), if At(s, t).StoreClosed? then NotifyOne else CloserWantLock)
  {
  }

  lemma NotifiesQuietly(s: State, t: Tid, polled: Polled)
    requires At(s, t).NotifyOne?
    ensures Quiet(s, t, Access(s, t, polled), CloserArrives)
  {
  }

  /** Where a thread goes on to that is neither looking nor polling. */
  function QuietNext(pc: Pc): Pc
    requires pc.WantLock? || pc.Parked? || pc.StoreClosed? || pc.NotifyOne? || pc.CloserArrives? || pc.CloserWantLock?
  {
    match pc
    case WantLock(late) => CheckOpen(late)
    case Parked(late) => PollSignal(late)
    case StoreClosed => NotifyOne
    case NotifyOne => CloserArrives
    case CloserArrives => CloserWantLock
    case CloserWantLock => DropStream
  }

  lemma QuietStep(s: State, t: Tid, polled: Polled)
    requires var pc := At(s, t);
             || pc.WantLock? || pc.Parked? || pc.StoreClosed? || pc.NotifyOne? || pc.CloserArrives?
             || pc.CloserWantLock?
    ensures Quiet(s, t, Access(s, t, polled), QuietNext(At(s, t)))
  {
    hide Access, Quiet;
    match At(s, t) {
      case Parked(_) => WakesQuietly(s, t, polled);
      case StoreClosed => ClosesQuietly(s, t, polled);
      case CloserArrives => ClosesQuietly(s, t, polled);
      case NotifyOne => NotifiesQuietly(s, t, polled);
      case _ => TakesLockQuietly(s, t, polled);
    }
  }

  lemma DropTells(s: State, t: Tid, polled: Polled)
    requires At(s, t).DropStream? && s.closed
    ensures Tells(s, Advance(t, polled), Access(s, t, polled))
    ensures At(Access(s, t, polled), t) == Idle
  {
  }

  lemma OtherTells(s: State, t: Tid, polled: Polled)
    requires Enabled(s, Advance(t, polled))
    requires var pc := At(s, t); !pc.CheckOpen? && !pc.LookInSlot? && !pc.PollSignal? && !pc.PollStream?
    requires At(s, t).DropStream? ==> s.closed
    ensures Tells(s, Advance(t, polled), Access(s, t, polled))
  {
    if At(s, t).DropStream? {
      DropTells(s, t, polled);
    } else {
      QuietStep(s, t, polled);
      assert Apply(s, Advance(t, polled)) == Access(s, t, polled);
    }
    hide Access, Enabled, Apply;
  }

  lemma EventTells(s: State, e: Event)
    requires Enabled(s, e) && !e.Advance?
    ensures Tells(s, e, Apply(s, e))
  {
    hide Leave;
  }

  /**
   Every call that returns is told one thing, and nothing else is ever told.  Bytes, an end and a
   failure come of a delivery by the network; everything but bytes, and a refusal at the first
   look, leaves the stream dropped.
   */
  lemma StepTells(s: State, e: Event)
    requires Inv(s) && Enabled(s, e)
    ensures Tells(s, e, Apply(s, e))
  {
    assert ThreadOk(s, At(s, e.t), e.t);
    hide Inv, Tells, Access;
    if e.Advance? {
      match At(s, e.t) {
        case CheckOpen(_) => LookTells(s, e.t, e.polled);
        case LookInSlot(_) => LookTells(s, e.t, e.polled);
        case PollSignal(_) => SignalTells(s, e.t, e.polled);
        case PollStream(_) => PollTells(s, e.t, e.polled);
        case _ => OtherTells(s, e.t, e.polled);
      }
    } else {
      EventTells(s, e);
    }
  }

  // ---------------------------------------------------------------- whole runs

  predicate Polling(pc: Pc) {
    pc.PollSignal? || pc.PollStream? || pc.Parked?
  }

  predicate Refused(s: State) {
    s.results != [] && Refusal(s.results[|s.results| - 1])
  }

  /** A reader that polls does so on an open stream, and not behind a refusal. */
  predicate PollerOk(s: State, pc: Pc) {
    && (Polling(pc) ==> s.streamOpen && !Refused(s))
    && (pc.LookInSlot? && Refused(s) ==> !s.streamOpen)
  }

  /** A refusal has a reason: the response was closed by then, or the stream had ended or failed. */
  predicate HasReason(results: seq<Answer>, i: nat)
    requires i < |results|
  {
    Refusal(results[i]) ==> results[i].closed || !AllChunks(Told(results[..i]))
  }

  predicate Ends(polls: seq<Polled>) {
    forall i | 0 <= i < |polls| - 1 :: polls[i].Chunk?
  }

  predicate Dropped(polls: seq<Polled>) {
    polls != [] && !polls[|polls| - 1].Chunk?
  }

  predicate SlotOk(s: State, polls: seq<Polled>) {
    && (s.streamOpen ==> !Dropped(polls))
    && (!s.streamOpen ==> s.closed || Dropped(polls))
    && (Refused(s) ==> s.closed || !s.streamOpen)
  }

  predicate RefusedForGood(results: seq<Answer>) {
    forall i, j | 0 <= i <= j < |results| :: Refusal(results[i]) ==> Refusal(results[j])
  }

  /** The answers agree with the deliveries, and every refusal with a reason. */
  ghost predicate ToldOk(s: State, polls: seq<Polled>)
    requires Pending !in polls
  {
    && Told(s.results) == Reports(polls) && Ends(polls) && SlotOk(s, polls)
    && RefusedForGood(s.results)
    && forall i | 0 <= i < |s.results| :: HasReason(s.results, i)
  }

  ghost predicate ReadsOk(s: State, polls: seq<Polled>)
    requires Pending !in polls
  {
    ToldOk(s, polls) && forall t :: PollerOk(s, At(s, t))
  }

  lemma ToldSnoc(results: seq<Answer>, last: Answer)
    ensures Told(results + [last]) == Told(results) + if Refusal(last) then [] else [last.outcome]
  {
    assert (results + [last])[..|results|] == results;
  }

  lemma ReportsSnoc(polls: seq<Polled>, last: Polled)
    requires Pending !in polls && last != Pending
    ensures Pending !in polls + [last]
    ensures Reports(polls + [last]) == Reports(polls) + [Reported(last)]
  {
  }

  lemma ReasonsStand(results: seq<Answer>, last: Answer)
    requires forall i | 0 <= i < |results| :: HasReason(results, i)
    requires Refusal(last) ==> last.closed || !AllChunks(Told(results))
    ensures forall i | 0 <= i < |results| + 1 :: HasReason(results + [last], i)
  {
    forall i | 0 <= i < |results| + 1
      ensures HasReason(results + [last], i)
    {
      assert (results + [last])[..i] == results[..i];
      assert results[..|results|] == results;
      assert i < |results| ==> HasReason(results, i);
    }
  }

  /** A stream that is dropped and not closed has told its end or failure. */
  lemma DroppedIsTold(results: seq<Answer>, polls: seq<Polled>)
    requires Pending !in polls && Told(results) == Reports(polls)
    ensures Dropped(polls) ==> !AllChunks(Told(results))
  {
    if Dropped(polls) {
      assert !IsChunk(Told(results)[|polls| - 1]);
    }
  }

  /** Only the thread in the lock touches the stream or is told anything. */
  lemma OnlyHolderTells(s: State, e: Event)
    requires Enabled(s, e) && (HoldsLock(At(s, e.t)) ==> s.lock == Some(e.t)) && s.lock != Some(e.t)
    ensures Apply(s, e).results == s.results && Apply(s, e).streamOpen == s.streamOpen
  {
    if e.Advance? {
      assert Apply(s, e) == Access(s, e.t, e.polled);
      QuietStep(s, e.t, e.polled);
    } else {
      EventTells(s, e);
    }
    hide Access, Apply, Enabled;
  }

  lemma OthersStay(s: State, e: Event, u: Tid)
    requires Enabled(s, e) && u != e.t
    ensures At(Apply(s, e), u) == At(s, u)
  {
    StepShifts(s, e);
    hide Apply, Leave, Enabled;
  }

  /** Where a call of `next_chunk` goes on to, short of its answer. */
  predicate GoesOn(s: State, t: Tid, s': State) {
    var pc, pc' := At(s, t), At(s', t);
    && (Polling(pc') ==> Polling(pc) || (pc.LookInSlot? && s.streamOpen))
    && (pc'.LookInSlot? ==> pc.CheckOpen? && !s.closed)
    && (Polling(pc') || pc'.LookInSlot? ==> s'.results == s.results && s'.streamOpen == s.streamOpen)
  }

  lemma PollGoesOn(s: State, t: Tid, polled: Polled)
    requires At(s, t).PollStream?
    ensures GoesOn(s, t, Access(s, t, polled))
  {
    if polled != Pending {
      ReturnTells(s, if polled.Chunk? then s else s.(streamOpen := false), t, At(s, t).late, Reported(polled));
    }
    hide Return;
  }

  lemma LookGoesOn(s: State, t: Tid, polled: Polled)
    requires At(s, t).CheckOpen? || At(s, t).LookInSlot?
    ensures GoesOn(s, t, Access(s, t, polled))
  {
    ReturnTells(s, s, t, At(s, t).late, GOT_CLOSED);
    hide Return;
  }

  lemma SignalGoesOn(s: State, t: Tid, polled: Polled)
    requires At(s, t).PollSignal?
    ensures GoesOn(s, t, Access(s, t, polled))
  {
    if WillWake(s, t) {
      SignalReturns(s, t, polled);
    } else {
      Registers(s, t, polled);
    }
    hide Access;
  }

  lemma OtherGoesOn(s: State, t: Tid, polled: Polled)
    requires Enabled(s, Advance(t, polled))
    requires var pc := At(s, t); !pc.CheckOpen? && !pc.LookInSlot? && !pc.PollSignal? && !pc.PollStream?
    ensures GoesOn(s, t, Access(s, t, polled))
  {
    if At(s, t).DropStream? {
      DropGoesOn(s, t, polled);
    } else {
      QuietStep(s, t, polled);
    }
    hide Access, Enabled;
  }

  lemma DropGoesOn(s: State, t: Tid, polled: Polled)
    requires At(s, t).DropStream?
    ensures GoesOn(s, t, Access(s, t, polled))
  {
  }

  lemma EventGoesOn(s: State, e: Event)
    requires Enabled(s, e) && !e.Advance?
    ensures GoesOn(s, e.t, Apply(s, e))
  {
    hide Leave;
  }

  lemma AccessGoesOn(s: State, t: Tid, polled: Polled)
    requires Enabled(s, Advance(t, polled))
    ensures GoesOn(s, t, Access(s, t, polled))
  {
    hide GoesOn, Access;
    match At(s, t) {
      case CheckOpen(_) => LookGoesOn(s, t, polled);
      case LookInSlot(_) => LookGoesOn(s, t, polled);
      case PollSignal(_) => SignalGoesOn(s, t, polled);
      case PollStream(_) => PollGoesOn(s, t, polled);
      case _ => OtherGoesOn(s, t, polled);
    }
  }

  lemma StepGoesOn(s: State, e: Event)
    requires Enabled(s, e)
    ensures GoesOn(s, e.t, Apply(s, e))
  {
    hide GoesOn, Access;
    if e.Advance? {
      AccessGoesOn(s, e.t, e.polled);
    } else {
      EventGoesOn(s, e);
    }
  }

  /** What the pollers need is kept by every step. */
  lemma StepKeepsPoller(s: State, e: Event, u: Tid)
    requires Inv(s) && Enabled(s, e) && PollerOk(s, At(s, u)) && PollerOk(s, At(s, e.t))
    requires Refused(s) ==> s.closed || !s.streamOpen
    ensures PollerOk(Apply(s, e), At(Apply(s, e), u))
  {
    assert ThreadOk(s, At(s, u), u) && ThreadOk(s, At(s, e.t), e.t);
    if u != e.t {
      OthersStay(s, e, u);
      if s.lock == Some(u) {
        OnlyHolderTells(s, e);
      }
    } else {
      StepGoesOn(s, e);
    }
    hide Inv, Apply, Enabled;
  }

  predicate Calm(s: State, s': State) {
    (s.closed ==> s'.closed) && (s'.streamOpen == s.streamOpen || (s.closed && !s'.streamOpen))
  }

  lemma NothingTold(s: State, s': State, polls: seq<Polled>)
    requires Pending !in polls && ToldOk(s, polls) && Calm(s, s') && s'.results == s.results
    ensures ToldOk(s', polls)
  {
    hide Told, Reports, HasReason, Dropped;
  }

  lemma RefusalTold(s: State, s': State, polls: seq<Polled>, last: Answer)
    requires Pending !in polls && ToldOk(s, polls) && Calm(s, s') && s'.results == s.results + [last]
    requires Refusal(last) && last.closed == s.closed && (s.closed || !s.streamOpen)
    ensures ToldOk(s', polls)
  {
    DroppedIsTold(s.results, polls);
    ToldSnoc(s.results, last);
    ReasonsStand(s.results, last);
    assert Told(s.results) + [] == Told(s.results);
    hide Told, Reports, HasReason, Dropped, AllChunks;
  }

  lemma MoreTold(s: State, s': State, polls: seq<Polled>, last: Answer, polled: Polled)
    requires Pending !in polls && polled != Pending && ToldOk(s, polls) && s.streamOpen && !Refused(s)
    requires s'.results == s.results + [last] && last.outcome == Reported(polled)
    requires s'.streamOpen == polled.Chunk? && (s.closed ==> s'.closed)
    ensures Pending !in polls + [polled] && ToldOk(s', polls + [polled])
  {
    ToldSnoc(s.results, last);
    ReportsSnoc(polls, polled);
    ReasonsStand(s.results, last);
    hide Told, Reports, HasReason, AllChunks;
  }

  /** A delivery is told at once, and goes to a reader whose stream is open. */
  lemma DeliveryTold(s: State, e: Event, polls: seq<Polled>)
    requires Inv(s) && Enabled(s, e) && Pending !in polls && ToldOk(s, polls) && Delivers(s, e)
    requires s.streamOpen && !Refused(s)
    ensures ToldOk(Apply(s, e), polls + [e.polled])
  {
    var s' := Apply(s, e);
    StepTells(s, e);
    assert Leaves(s, e);
    var last := s'.results[|s.results|];
    assert s'.results == s.results + [last];
    hide ToldOk, Apply, Inv, Enabled, Leaves, Delivers, Refused, Reported;
    MoreTold(s, s', polls, last, e.polled);
  }

  lemma SilenceKeepsReads(s: State, e: Event, polls: seq<Polled>)
    requires Inv(s) && Enabled(s, e) && Pending !in polls && ToldOk(s, polls) && !Delivers(s, e)
    ensures ToldOk(Apply(s, e), polls)
  {
    var s' := Apply(s, e);
    StepTells(s, e);
    assert Calm(s, s');
    if Leaves(s, e) {
      var last := s'.results[|s.results|];
      assert s'.results == s.results + [last] && Refusal(last) && last.closed == s.closed;
      hide ToldOk, Apply, Inv, Enabled, Leaves, Delivers, Tells, Calm, Refusal;
      RefusalTold(s, s', polls, last);
    } else {
      assert s'.results == s.results;
      hide ToldOk, Apply, Inv, Enabled, Leaves, Delivers, Tells, Calm;
      NothingTold(s, s', polls);
    }
  }

  lemma StepKeepsReads(s: State, e: Event, polls: seq<Polled>)
    requires Inv(s) && Enabled(s, e) && Pending !in polls && ReadsOk(s, polls)
    ensures ReadsOk(Apply(s, e), polls + if Delivers(s, e) then [e.polled] else [])
  {
    var s' := Apply(s, e);
    if Delivers(s, e) {
      assert PollerOk(s, At(s, e.t));
      DeliveryTold(s, e, polls);
    } else {
      SilenceKeepsReads(s, e, polls);
      assert polls + [] == polls;
    }
    forall u
      ensures PollerOk(s', At(s', u))
    {
      assert PollerOk(s, At(s, u)) && PollerOk(s, At(s, e.t));
      StepKeepsPoller(s, e, u);
    }
    hide Inv, Enabled, Apply, ToldOk, PollerOk;
  }

  lemma {:induction false} RunKeepsReads(run: seq<Event>)
    requires Execute(INIT, run).Some?
    ensures Inv(Execute(INIT, run).value) && ReadsOk(Execute(INIT, run).value, Delivered(run))
    decreases |run|
  {
    hide Inv, ReadsOk, Enabled, Apply, Delivers;
    StartsWell();
    RunKeepsInv(INIT, run);
    if run == [] {
      NothingRead();
    } else {
      RunKeepsReads(run[..|run| - 1]);
      StepKeepsReads(Execute(INIT, run[..|run| - 1]).value, run[|run| - 1], Delivered(run[..|run| - 1]));
    }
  }

  lemma StartsWell()
    ensures Inv(INIT) && QueueOk(INIT)
  {
  }

  lemma NothingRead()
    ensures ReadsOk(INIT, [])
  {
  }

  /**
   Over every run, what calls are told besides a refusal is what the network delivered, one for one
   and in order: bytes as they came, an end as an end, a failure as a failure, and nothing behind
   either.  A refusal is for good, and a call is refused only if the response was closed by then or
   the stream had ended or failed.
   */
  lemma ToldAsDelivered(run: seq<Event>)
    requires Execute(INIT, run).Some?
    ensures var s, polls := Execute(INIT, run).value, Delivered(run);
            && Told(s.results) == Reports(polls)
            && (forall i | 0 <= i < |polls| - 1 :: polls[i].Chunk?)
            && (forall i, j | 0 <= i <= j < |s.results| :: Refusal(s.results[i]) ==> Refusal(s.results[j]))
            && (forall i | 0 <= i < |s.results| && Refusal(s.results[i]) ::
                  s.results[i].closed || !AllChunks(Told(s.results[..i])))
            && (s.streamOpen ==> forall p <- polls :: p.Chunk?)
            && (!s.streamOpen ==> s.closed || (polls != [] && !polls[|polls| - 1].Chunk?))
  {
    RunKeepsReads(run);
    Spelled(Execute(INIT, run).value, Delivered(run));
    hide Execute, Delivered, Told, Reports, ReadsOk, Inv;
  }

  lemma Spelled(s: State, polls: seq<Polled>)
    requires Pending !in polls && ReadsOk(s, polls)
    ensures Told(s.results) == Reports(polls)
    ensures forall i | 0 <= i < |polls| - 1 :: polls[i].Chunk?
    ensures forall i, j | 0 <= i <= j < |s.results| :: Refusal(s.results[i]) ==> Refusal(s.results[j])
    ensures forall i | 0 <= i < |s.results| && Refusal(s.results[i]) ::
      s.results[i].closed || !AllChunks(Told(s.results[..i]))
    ensures s.streamOpen ==> forall p <- polls :: p.Chunk?
    ensures !s.streamOpen ==> s.closed || (polls != [] && !polls[|polls| - 1].Chunk?)
  {
    hide Told, Reports, PollerOk, AllChunks;
    forall i | 0 <= i < |s.results| && Refusal(s.results[i])
      ensures s.results[i].closed || !AllChunks(Told(s.results[..i]))
    {
      assert HasReason(s.results, i);
    }
  }

  // ---------------------------------------------------------------- the promise of a source

  /** What the `i`th delivery of this network is. */
  function PollOf(net: seq<NetworkSource.Event<Bytes>>, i: nat): Polled {
    if i >= |net| then End
    else
      match net[i]
      case Data(chunk) => Chunk(chunk)
      case Broken => Failed
  }

  predicate Serves(net: seq<NetworkSource.Event<Bytes>>, polls: seq<Polled>) {
    forall i | 0 <= i < |polls| :: polls[i] == PollOf(net, i)
  }

  /** Read after read, each answered as `Source.NextChunk` promises. */
  predicate ReadInTurn(
    views: seq<NetworkSource.View<Bytes>>, outcomes: seq<Outcome>, closes: seq<bool>) {
    && |views| == |outcomes| + 1 && |closes| == |outcomes|
    && (forall i | 0 <= i < |outcomes| :: NetworkSource.Reads(views[i], outcomes[i], views[i + 1], closes[i]))
    && (forall i, j | 0 <= i <= j < |closes| :: closes[i] ==> closes[j])
  }

  function Outcomes(results: seq<Answer>): (outcomes: seq<Outcome>)
    ensures |outcomes| == |results| && forall i | 0 <= i < |results| :: outcomes[i] == results[i].outcome
  {
    seq(|results|, i requires 0 <= i < |results| => results[i].outcome)
  }

  /** What is left of the network behind these deliveries. */
  function Behind(net: seq<NetworkSource.Event<Bytes>>, told: seq<Outcome>): NetworkSource.View<Bytes> {
    NetworkSource.View(if |told| <= |net| then net[|told|..] else [], AllChunks(told))
  }

  function LeftOf(net: seq<NetworkSource.Event<Bytes>>, results: seq<Answer>): NetworkSource.View<Bytes> {
    Behind(net, Told(results))
  }

  lemma {:induction false} ToldPrefix(results: seq<Answer>, i: nat)
    requires i <= |results|
    ensures Told(results[..i]) <= Told(results)
    decreases |results| - i
  {
    if i == |results| {
      assert results[..i] == results;
    } else {
      ToldPrefix(results, i + 1);
      assert results[..i + 1] == results[..i] + [results[i]];
      ToldSnoc(results[..i], results[i]);
    }
  }

  /** An answer that is no refusal is the next delivery. */
  lemma NextTold(net: seq<NetworkSource.Event<Bytes>>, polls: seq<Polled>, results: seq<Answer>, i: nat)
    requires Pending !in polls && Told(results) == Reports(polls) && Ends(polls) && Serves(net, polls)
    requires i < |results| && !Refusal(results[i])
    ensures var n := |Told(results[..i])|;
            && Told(results[..i + 1]) == Told(results[..i]) + [results[i].outcome]
            && AllChunks(Told(results[..i])) && results[i].outcome == Reported(PollOf(net, n))
  {
    assert results[..i + 1] == results[..i] + [results[i]];
    ToldSnoc(results[..i], results[i]);
    ToldPrefix(results, i + 1);
    hide Told;
    var before, n := Told(results[..i]), |Told(results[..i])|;
    assert Told(results[..i + 1])[n] == results[i].outcome;
    forall j | 0 <= j < n
      ensures IsChunk(before[j])
    {
      assert before[j] == Told(results[..i + 1])[j] == Reported(polls[j]);
    }
  }

  lemma ChunksSnoc(outcomes: seq<Outcome>, last: Outcome)
    ensures AllChunks(outcomes + [last]) <==> AllChunks(outcomes) && IsChunk(last)
  {
    var more := outcomes + [last];
    assert more[|outcomes|] == last && forall i | 0 <= i < |outcomes| :: more[i] == outcomes[i];
  }

  /** One more delivery told, seen as a read of the source. */
  lemma DeliveryReads(net: seq<NetworkSource.Event<Bytes>>, told: seq<Outcome>, last: Outcome)
    requires AllChunks(told) && PollOf(net, |told|) != Pending && last == Reported(PollOf(net, |told|))
    ensures NetworkSource.Reads(Behind(net, told), last, Behind(net, told + [last]), false)
  {
    ChunksSnoc(told, last);
    assert |told| < |net| ==> net[|told|..][1..] == net[|told| + 1..];
    assert |told| == |net| ==> net[|told|..] == [];
  }

  lemma AnswerReads(net: seq<NetworkSource.Event<Bytes>>, polls: seq<Polled>, results: seq<Answer>, i: nat)
    requires Pending !in polls && Told(results) == Reports(polls) && Ends(polls) && Serves(net, polls)
    requires i < |results|
    ensures var before, after := LeftOf(net, results[..i]), LeftOf(net, results[..i + 1]);
            NetworkSource.Reads(before, results[i].outcome, after, before.live && Refusal(results[i]))
  {
    assert results[..i + 1] == results[..i] + [results[i]];
    ToldSnoc(results[..i], results[i]);
    if Refusal(results[i]) {
      assert Told(results[..i]) + [] == Told(results[..i]);
    } else {
      NextTold(net, polls, results, i);
      DeliveryReads(net, Told(results[..i]), results[i].outcome);
    }
  }

  /**
   Readers and closers keep the promise of the source the iterators read.  Whatever stream of
   events a run's deliveries come from, its answers are, one after another, what
   `Source.NextChunk` may answer on that stream, with a close that one call finds found by every
   later one; and a call finds it only if it was there.
   */
  lemma KeepsSourcePromise(run: seq<Event>, net: seq<NetworkSource.Event<Bytes>>)
    returns (views: seq<NetworkSource.View<Bytes>>, closes: seq<bool>)
    requires Execute(INIT, run).Some? && Serves(net, Delivered(run))
    ensures var s := Execute(INIT, run).value;
            && ReadInTurn(views, Outcomes(s.results), closes)
            && views[0] == NetworkSource.View(net, true)
            && forall i | 0 <= i < |closes| :: closes[i] ==> s.results[i].closed
  {
    RunKeepsReads(run);
    hide Execute, Inv, Delivered, PollerOk, SlotOk, ReadInTurn, RefusedForGood, HasReason, Ends, Told, Reports;
    views, closes := AnswersInTurn(net, Delivered(run), Execute(INIT, run).value.results);
  }

  /** Answers that agree with the deliveries are reads in turn. */
  lemma AnswersInTurn(net: seq<NetworkSource.Event<Bytes>>, polls: seq<Polled>, results: seq<Answer>)
    returns (views: seq<NetworkSource.View<Bytes>>, closes: seq<bool>)
    requires Pending !in polls && Told(results) == Reports(polls) && Ends(polls) && Serves(net, polls)
    requires RefusedForGood(results) && forall i | 0 <= i < |results| :: HasReason(results, i)
    ensures ReadInTurn(views, Outcomes(results), closes)
    ensures views[0] == NetworkSource.View(net, true)
    ensures |closes| == |results| && forall i | 0 <= i < |closes| :: closes[i] ==> results[i].closed
  {
    views := seq(|results| + 1, i requires 0 <= i <= |results| => LeftOf(net, results[..i]));
    closes := seq(|results|, i requires 0 <= i < |results| => LeftOf(net, results[..i]).live && Refusal(results[i]));
    assert results[..0] == [] && net[0..] == net && views[0] == NetworkSource.View(net, true);
    hide Told, Reports, LeftOf, Ends, Serves;
    forall i | 0 <= i < |results|
      ensures NetworkSource.Reads(views[i], Outcomes(results)[i], views[i + 1], closes[i])
    {
      AnswerReads(net, polls, results, i);
    }
    forall i | 0 <= i < |results| && closes[i]
      ensures results[i].closed
    {
      LiveMeansChunks(net, results[..i]);
      assert HasReason(results, i);
    }
    hide NetworkSource.Reads, HasReason;
    forall i, j | 0 <= i <= j < |closes| && closes[i]
      ensures closes[j]
    {
      ClosedForGood(net, results, i, j);
    }
  }

  lemma LiveMeansChunks(net: seq<NetworkSource.Event<Bytes>>, results: seq<Answer>)
    ensures LeftOf(net, results).live <==> AllChunks(Told(results))
  {
  }

  /** Behind a refusal nothing more is told. */
  lemma {:induction false} ClosedForGood(net: seq<NetworkSource.Event<Bytes>>, results: seq<Answer>, i: nat, j: nat)
    requires i <= j < |results| && RefusedForGood(results) && Refusal(results[i])
    ensures Refusal(results[j]) && LeftOf(net, results[..j]) == LeftOf(net, results[..i])
    decreases j
  {
    if i < j {
      ClosedForGood(net, results, i, j - 1);
      assert results[..j] == results[..j - 1] + [results[j - 1]];
      ToldSnoc(results[..j - 1], results[j - 1]);
      assert Told(results[..j - 1]) + [] == Told(results[..j - 1]);
    }
  }

  // ---------------------------------------------------------------- a call comes to its answer

  /** The accesses of one undisturbed call: it arrives, and makes `n` of them. */
  function Call(t: Tid, n: nat, polled: Polled): seq<Event> {
    if n == 0 then [CallNext(t)] else Call(t, n - 1, polled) + [Advance(t, polled)]
  }

  lemma OneMore(s: State, t: Tid, n: nat, polled: Polled, now: State)
    requires Execute(s, Call(t, n, polled)) == Some(now) && Enabled(now, Advance(t, polled))
    ensures Execute(s, Call(t, n + 1, polled)) == Some(Access(now, t, polled))
  {
    OneStepMore(s, Call(t, n, polled), Advance(t, polled), now);
    CallSnoc(t, n, polled);
    hide Enabled, Access, Execute, Call;
  }

  lemma CallSnoc(t: Tid, n: nat, polled: Polled)
    ensures Call(t, n + 1, polled) == Call(t, n, polled) + [Advance(t, polled)]
  {
  }

  lemma OneStepMore(s: State, run: seq<Event>, e: Event, now: State)
    requires Execute(s, run) == Some(now) && Enabled(now, e)
    ensures Execute(s, run + [e]) == Some(Apply(now, e))
  {
    hide Enabled, Apply;
    assert (run + [e])[..|run|] == run;
  }

  lemma Begins(s: State, t: Tid, polled: Polled)
    requires Enabled(s, CallNext(t)) && s.lock.None? && s.queue == []
    ensures var now := Apply(s, CallNext(t));
            && Execute(s, Call(t, 0, polled)) == Some(now)
            && At(now, t) == WantLock(s.closed) && First(now, t) && Undisturbed(s, now)
            && Enabled(now, Advance(t, polled))
  {
    assert [CallNext(t)][..0] == [];
    assert Execute(s, []) == Some(s);
  }

  /** Nothing but the call's own place, the lock and its queue has changed. */
  predicate Undisturbed(s: State, now: State) {
    && now.results == s.results && now.closed == s.closed && now.streamOpen == s.streamOpen
    && now.waiter == s.waiter && now.permit == s.permit
  }

  lemma Enters(s: State, t: Tid, polled: Polled)
    requires At(s, t).WantLock? && First(s, t)
    ensures var now := Access(s, t, polled);
            At(now, t) == CheckOpen(At(s, t).late) && Undisturbed(s, now) && Enabled(now, Advance(t, polled))
  {
    hide Leave;
  }

  lemma Looks(s: State, t: Tid, polled: Polled)
    requires At(s, t).CheckOpen? || At(s, t).LookInSlot?
    ensures var now, late := Access(s, t, polled), At(s, t).late;
            if (if At(s, t).CheckOpen? then s.closed else !s.streamOpen) then
              At(now, t) == Idle && now.results == s.results + [Answer(late, s.closed, GOT_CLOSED)]
            else
              && At(now, t) == (if At(s, t).CheckOpen? then LookInSlot(late) else PollSignal(late))
              && Undisturbed(s, now) && Enabled(now, Advance(t, polled))
  {
    ReturnTells(s, s, t, At(s, t).late, GOT_CLOSED);
    hide Return;
  }

  lemma Receives(s: State, t: Tid, polled: Polled)
    requires At(s, t).PollStream? && polled != Pending
    ensures var now := Access(s, t, polled);
            At(now, t) == Idle && now.results == s.results + [Answer(At(s, t).late, s.closed, Reported(polled))]
  {
    ReturnTells(s, if polled.Chunk? then s else s.(streamOpen := false), t, At(s, t).late, Reported(polled));
    hide Return;
  }

  /** Nobody is in the lock or waits for it, nor is a reader registered. */
  predicate Undisputed(s: State, t: Tid) {
    At(s, t) == Idle && s.lock.None? && s.queue == [] && s.waiter.None? && (s.permit ==> s.closed)
  }

  lemma FirstLooks(s: State, t: Tid, polled: Polled) returns (now: State)
    requires Undisputed(s, t)
    ensures Execute(s, Call(t, 2, polled)) == Some(now)
    ensures if s.closed then At(now, t) == Idle && now.results == s.results + [Answer(true, true, GOT_CLOSED)]
            else At(now, t) == LookInSlot(false) && Undisturbed(s, now) && Enabled(now, Advance(t, polled))
  {
    Begins(s, t, polled);
    now := Apply(s, CallNext(t));
    hide Execute, Access, Apply, Call, Enabled, First;
    Enters(now, t, polled);
    OneMore(s, t, 0, polled, now);
    now := Access(now, t, polled);
    Looks(now, t, polled);
    OneMore(s, t, 1, polled, now);
    now := Access(now, t, polled);
  }

  lemma ThenReads(s: State, t: Tid, polled: Polled, look: State) returns (n: nat, now: State)
    requires Undisputed(s, t) && !s.closed && polled != Pending
    requires Execute(s, Call(t, 2, polled)) == Some(look)
    requires At(look, t) == LookInSlot(false) && Undisturbed(s, look) && Enabled(look, Advance(t, polled))
    ensures n <= 5 && Execute(s, Call(t, n, polled)) == Some(now) && At(now, t) == Idle
    ensures var outcome := if s.streamOpen then Reported(polled) else GOT_CLOSED;
            now.results == s.results + [Answer(false, false, outcome)]
  {
    hide Execute, Access, Call, Enabled, Reported;
    Looks(look, t, polled);
    OneMore(s, t, 2, polled, look);
    n, now := 3, Access(look, t, polled);
    if s.streamOpen {
      Registers(now, t, polled);
      OneMore(s, t, 3, polled, now);
      now := Access(now, t, polled);
      Receives(now, t, polled);
      OneMore(s, t, 4, polled, now);
      n, now := 5, Access(now, t, polled);
    }
  }

  lemma StartsUndisputed(s: State, t: Tid)
    requires Inv(s) && At(s, t) == Idle && s.lock.None? && s.queue == []
    ensures Undisputed(s, t)
  {
  }

  /**
   An undisturbed call answers: in every state a run can reach, when nobody is in the lock or
   waits for it, a thread that calls is told after at most five accesses what the network delivers
   to it, or that the stream is closed if it was closed or has ended or failed before.
   */
  lemma CallIsAnswered(run: seq<Event>, t: Tid, polled: Polled) returns (n: nat, after: State)
    requires Execute(INIT, run).Some? && polled != Pending
    requires var s := Execute(INIT, run).value; At(s, t) == Idle && s.lock.None? && s.queue == []
    ensures var s := Execute(INIT, run).value;
            && n <= 5 && Execute(s, Call(t, n, polled)) == Some(after) && At(after, t) == Idle
            && |after.results| == |s.results| + 1 && after.results[..|s.results|] == s.results
            && after.results[|s.results|].outcome
               == if s.closed || !s.streamOpen then Err(NetworkSource.StreamClosed) else Reported(polled)
  {
    RunKeepsInv(INIT, run);
    var s := Execute(INIT, run).value;
    StartsUndisputed(s, t);
    hide Inv, Execute, Call, Undisputed, Reported;
    n := 2;
    after := FirstLooks(s, t, polled);
    if !s.closed {
      n, after := ThenReads(s, t, polled, after);
    }
  }
}
