/**
 Closing a response while an iterator reads it: a lock around the stream, a `closed`
 flag and a one-permit `Notify`, interleaved one access or poll at a time. The network
 decides what a poll of the stream gives; a task may be cancelled wherever it waits. The
 lock is fair: whoever comes to it first gets it first.
 */
module LiveStreamProtocol {
  import opened Prelude
  import NetworkSource

  type Tid = nat

  /** What a poll of the stream gives: nothing yet, bytes, an error, or its end. */
  datatype Polled = Pending | Chunk(bytes: Bytes) | Failed | End

  type Outcome = Result<Option<Bytes>, NetworkSource.ReadError>

  const GOT_END: Outcome := Ok(None)
  const GOT_FAILURE: Outcome := Err(NetworkSource.TransportFailed)
  const GOT_CLOSED: Outcome := Err(NetworkSource.StreamClosed)

  /** `late` marks a `next_chunk` that began when `closed` was already set. */
  datatype Pc =
    | Idle
    | WantLock(late: bool)
    | CheckOpen(late: bool)
    | LookInSlot(late: bool)
    | PollSignal(late: bool)
    | PollStream(late: bool)
    | Parked(late: bool)
    | StoreClosed
    | NotifyOne
    | CloserArrives
    | CloserWantLock
    | DropStream

  /** The one `notified()` future in existence; a woken one owns the notification. */
  datatype Waiter = Waiter(t: Tid, woken: bool)

  /** What one call was told, and whether `closed` was set by then. */
  datatype Answer = Answer(late: bool, closed: bool, outcome: Outcome)

  /**
   `queue`: who waits for the lock, in order. `signalled`: some closer has finished
   `mark_closed`. `closedOnce`: some `close` has returned.
   */
  datatype State = State(
    streamOpen: bool, closed: bool, permit: bool, waiter: Option<Waiter>, lock: Option<Tid>,
    queue: seq<Tid>, threads: map<Tid, Pc>, results: seq<Answer>, signalled: bool, closedOnce: bool)

  datatype Event =
    | CallNext(t: Tid)
    | CallClose(t: Tid)
    | Advance(t: Tid, polled: Polled)
    | NetworkWakes(t: Tid)
    | Cancel(t: Tid)

  const INIT := State(true, false, false, None, None, [], map[], [], false, false)

  function At(s: State, t: Tid): Pc {
    if t in s.threads then s.threads[t] else Idle
  }

  function Goto(s: State, t: Tid, pc: Pc): State {
    s.(threads := s.threads[t := pc])
  }

  /** Dropping `notified()` hands an unused notification back. */
  function DropWaiter(s: State): State {
    s.(permit := s.permit || (s.waiter.Some? && s.waiter.value.woken), waiter := None)
  }

  /** `next_chunk` returns: the select's futures and the lock guard are dropped. */
  function Return(s: State, t: Tid, late: bool, outcome: Outcome): State {
    Goto(DropWaiter(s), t, Idle).(lock := None, results := s.results + [Answer(late, s.closed, outcome)])
  }

  function Leave(queue: seq<Tid>, t: Tid): seq<Tid> {
    if queue == [] then [] else if queue[0] == t then queue[1..] else [queue[0]] + Leave(queue[1..], t)
  }

  predicate First(s: State, t: Tid) {
    s.lock.None? && s.queue != [] && s.queue[0] == t
  }

  predicate Woken(s: State, t: Tid) {
    s.waiter == Some(Waiter(t, true))
  }

  predicate Enabled(s: State, e: Event) {
    match e
    case CallNext(t) => At(s, t) == Idle
    case CallClose(t) => At(s, t) == Idle
    case Advance(t, _) =>
      match At(s, t) {
        case Idle => false
        case WantLock(_) => First(s, t)
        case CloserWantLock => First(s, t)
        case Parked(_) => Woken(s, t)
        case _ => true
      }
    case NetworkWakes(t) => At(s, t).Parked?
    case Cancel(t) => At(s, t).WantLock? || At(s, t).Parked? || At(s, t).CloserWantLock?
  }

  function Access(s: State, t: Tid, polled: Polled): State {
    match At(s, t)
    case Idle => s
    case WantLock(late) => Goto(s.(lock := Some(t), queue := Leave(s.queue, t)), t, CheckOpen(late))
    case CheckOpen(late) => if s.closed then Return(s, t, late, GOT_CLOSED) else Goto(s, t, LookInSlot(late))
    case LookInSlot(late) => if s.streamOpen then Goto(s, t, PollSignal(late)) else Return(s, t, late, GOT_CLOSED)
    case PollSignal(late) =>
      if Woken(s, t) then Return(s.(waiter := None, streamOpen := false), t, late, GOT_CLOSED)
      else if s.waiter.None? && s.permit then Return(s.(permit := false, streamOpen := false), t, late, GOT_CLOSED)
      else Goto(if s.waiter.None? then s.(waiter := Some(Waiter(t, false))) else s, t, PollStream(late))
    case PollStream(late) =>
      (match polled
       case Pending => Goto(s, t, Parked(late))
       case Chunk(bytes) => Return(s, t, late, Ok(Some(bytes)))
       case Failed => Return(s.(streamOpen := false), t, late, GOT_FAILURE)
       case End => Return(s.(streamOpen := false), t, late, GOT_END))
    case Parked(late) => Goto(s, t, PollSignal(late))
    case StoreClosed => Goto(s.(closed := true), t, NotifyOne)
    case NotifyOne =>
      var told := if s.waiter.Some? && !s.waiter.value.woken
                  then s.(waiter := Some(s.waiter.value.(woken := true))) else s.(permit := true);
      Goto(told.(signalled := true), t, CloserArrives)
    case CloserArrives => Goto(s.(queue := s.queue + [t]), t, CloserWantLock)
    case CloserWantLock => Goto(s.(lock := Some(t), queue := Leave(s.queue, t)), t, DropStream)
    case DropStream => Goto(s.(streamOpen := false, lock := None, closedOnce := true), t, Idle)
  }

  function Apply(s: State, e: Event): State {
    match e
    case CallNext(t) => Goto(s.(queue := s.queue + [t]), t, WantLock(s.closed))
    case CallClose(t) => Goto(s, t, StoreClosed)
    case Advance(t, polled) => Access(s, t, polled)
    case NetworkWakes(t) => (match At(s, t) case Parked(late) => Goto(s, t, PollSignal(late)) case _ => s)
    case Cancel(t) =>
      if At(s, t).Parked? then Goto(DropWaiter(s), t, Idle).(lock := None)
      else Goto(s.(queue := Leave(s.queue, t)), t, Idle)
  }

  function Execute(s: State, run: seq<Event>): Option<State> {
    if run == [] then Some(s)
    else match Execute(s, run[..|run| - 1])
      case None => None
      case Some(before) =>
        if Enabled(before, run[|run| - 1]) then Some(Apply(before, run[|run| - 1])) else None
  }

  // ---------------------------------------------------------------- what every step keeps

  predicate HoldsLock(pc: Pc) {
    pc.CheckOpen? || pc.LookInSlot? || pc.PollSignal? || pc.PollStream? || pc.Parked? || pc.DropStream?
  }

  /** Past `check_open`, so `closed` was not set when it looked. */
  predicate Reading(pc: Pc) {
    pc.LookInSlot? || pc.PollSignal? || pc.PollStream? || pc.Parked?
  }

  /** A notification this reader will find: its own, or the stored permit if it has yet to register. */
  predicate WillWake(s: State, t: Tid) {
    Woken(s, t) || (s.waiter.None? && s.permit)
  }

  predicate ThreadOk(s: State, pc: Pc, t: Tid) {
    && (HoldsLock(pc) <==> s.lock == Some(t))
    && (pc.PollStream? || pc.Parked? ==> s.waiter.Some? && s.waiter.value.t == t)
    && (pc.LookInSlot? ==> s.waiter.None?)
    && (pc.PollSignal? ==> s.waiter.Some? ==> s.waiter.value.t == t)
    && (pc.CheckOpen? || pc.DropStream? ==> s.waiter.None?)
    && (Reading(pc) ==> !pc.late && (s.signalled ==> WillWake(s, t)))
    && ((pc.WantLock? || pc.CheckOpen?) && pc.late ==> s.closed)
    && (pc.NotifyOne? || pc.CloserArrives? || pc.CloserWantLock? || pc.DropStream? ==> s.closed)
    && (pc.CloserArrives? || pc.CloserWantLock? || pc.DropStream? ==> s.signalled)
  }

  ghost predicate Inv(s: State) {
    && (s.signalled ==> s.closed)
    && (s.permit || (s.waiter.Some? && s.waiter.value.woken) ==> s.signalled)
    && (s.closedOnce ==> s.signalled && !s.streamOpen)
    && (s.lock.None? ==> s.waiter.None?)
    && (forall t :: ThreadOk(s, At(s, t), t))
    && (forall r :: r in s.results ==> r.late ==> r.outcome == GOT_CLOSED)
  }

  /** One step of thread `t` that does not take the lock from, or the wake-up of, another thread. */
  lemma OneThread(s: State, s': State, t: Tid)
    requires Inv(s) && ThreadOk(s', At(s', t), t)
    requires forall u :: u != t ==> At(s', u) == At(s, u)
    requires s'.lock == s.lock || (s.lock.None? && s'.lock == Some(t)) || (s.lock == Some(t) && s'.lock.None?)
    requires s.lock.Some? && s.lock.value != t ==>
               && s'.waiter.Some? == s.waiter.Some? && (s.waiter.Some? ==> s'.waiter.value.t == s.waiter.value.t)
               && (s'.signalled ==> WillWake(s', s.lock.value) || !Reading(At(s, s.lock.value)))
    requires (s.closed ==> s'.closed) && (s.signalled ==> s'.signalled)
    ensures forall u :: ThreadOk(s', At(s', u), u)
  {
    forall u | u != t
      ensures ThreadOk(s', At(s', u), u)
    {
      assert ThreadOk(s, At(s, u), u);
    }
  }

  lemma ReturnKeepsInv(s: State, t: Tid, late: bool, outcome: Outcome)
    requires Inv(s) && s.lock == Some(t) && (late ==> outcome == GOT_CLOSED)
    ensures Inv(Return(s, t, late, outcome))
  {
    assert ThreadOk(s, At(s, t), t);
    OneThread(s, Return(s, t, late, outcome), t);
  }

  /** A reader that was told consumes the notification and drops the stream. */
  lemma TellKeepsInv(s: State, t: Tid)
    requires Inv(s) && At(s, t).PollSignal? && WillWake(s, t)
    ensures Inv(Access(s, t, Pending))
  {
    assert ThreadOk(s, At(s, t), t);
    OneThread(s, Access(s, t, Pending), t);
  }

  lemma NotifyKeepsInv(s: State, t: Tid)
    requires Inv(s) && At(s, t) == NotifyOne
    ensures Inv(Access(s, t, Pending))
  {
    assert ThreadOk(s, At(s, t), t);
    if s.lock.Some? {
      assert ThreadOk(s, At(s, s.lock.value), s.lock.value);
    }
    OneThread(s, Access(s, t, Pending), t);
  }

  /** Accesses that hand nothing over. */
  lemma MoveKeepsInv(s: State, t: Tid, polled: Polled)
    requires Inv(s) && Enabled(s, Advance(t, polled))
    requires var pc := At(s, t);
             || pc.WantLock? || pc.CloserWantLock? || pc.Parked? || (pc.CheckOpen? && !s.closed)
             || (pc.LookInSlot? && s.streamOpen) || (pc.PollStream? && polled == Pending)
    ensures Inv(Access(s, t, polled))
  {
    assert ThreadOk(s, At(s, t), t);
    OneThread(s, Access(s, t, polled), t);
  }

  lemma RegisterKeepsInv(s: State, t: Tid)
    requires Inv(s) && At(s, t).PollSignal? && !WillWake(s, t)
    ensures Inv(Access(s, t, Pending))
  {
    assert ThreadOk(s, At(s, t), t);
    OneThread(s, Access(s, t, Pending), t);
  }

  lemma CloserKeepsInv(s: State, t: Tid)
    requires Inv(s) && (At(s, t).StoreClosed? || At(s, t).CloserArrives? || At(s, t).DropStream?)
    ensures Inv(Access(s, t, Pending))
  {
    assert ThreadOk(s, At(s, t), t);
    if s.lock.Some? {
      assert ThreadOk(s, At(s, s.lock.value), s.lock.value);
    }
    OneThread(s, Access(s, t, Pending), t);
  }

  lemma AdvanceKeepsInv(s: State, t: Tid, polled: Polled)
    requires Inv(s) && Enabled(s, Advance(t, polled))
    ensures Inv(Access(s, t, polled))
  {
    assert ThreadOk(s, At(s, t), t);
    hide Inv;
    match At(s, t) {
      case CheckOpen(late) =>
        if s.closed {
          ReturnKeepsInv(s, t, late, GOT_CLOSED);
        } else {
          MoveKeepsInv(s, t, polled);
        }
      case LookInSlot(late) =>
        if s.streamOpen {
          MoveKeepsInv(s, t, polled);
        } else {
          ReturnKeepsInv(s, t, late, GOT_CLOSED);
        }
      case PollSignal(late) =>
        if WillWake(s, t) {
          TellKeepsInv(s, t);
        } else {
          RegisterKeepsInv(s, t);
        }
      case PollStream(late) =>
        match polled {
          case Pending => MoveKeepsInv(s, t, polled);
          case Chunk(bytes) => ReturnKeepsInv(s, t, late, Ok(Some(bytes)));
          case Failed =>
            DropKeepsInv(s);
            ReturnKeepsInv(s.(streamOpen := false), t, late, GOT_FAILURE);
          case End =>
            DropKeepsInv(s);
            ReturnKeepsInv(s.(streamOpen := false), t, late, GOT_END);
        }
      case NotifyOne => NotifyKeepsInv(s, t);
      case StoreClosed => CloserKeepsInv(s, t);
      case CloserArrives => CloserKeepsInv(s, t);
      case DropStream => CloserKeepsInv(s, t);
      case _ => MoveKeepsInv(s, t, polled);
    }
  }

  lemma DropKeepsInv(s: State)
    requires Inv(s)
    ensures Inv(s.(streamOpen := false))
  {
    var s' := s.(streamOpen := false);
    forall u
      ensures ThreadOk(s', At(s', u), u)
    {
      assert ThreadOk(s, At(s, u), u);
    }
  }

  lemma CallKeepsInv(s: State, e: Event)
    requires Inv(s) && Enabled(s, e) && (e.CallNext? || e.CallClose?)
    ensures Inv(Apply(s, e))
  {
    assert ThreadOk(s, At(s, e.t), e.t);
    if s.lock.Some? {
      assert ThreadOk(s, At(s, s.lock.value), s.lock.value);
    }
    OneThread(s, Apply(s, e), e.t);
  }

  lemma WakeKeepsInv(s: State, t: Tid)
    requires Inv(s) && At(s, t).Parked?
    ensures Inv(Apply(s, NetworkWakes(t)))
  {
    assert ThreadOk(s, At(s, t), t);
    OneThread(s, Apply(s, NetworkWakes(t)), t);
  }

  lemma CancelKeepsInv(s: State, t: Tid)
    requires Inv(s) && Enabled(s, Cancel(t))
    ensures Inv(Apply(s, Cancel(t)))
  {
    assert ThreadOk(s, At(s, t), t);
    if s.lock.Some? {
      assert ThreadOk(s, At(s, s.lock.value), s.lock.value);
    }
    OneThread(s, Apply(s, Cancel(t)), t);
  }

  lemma StepKeepsInv(s: State, e: Event)
    requires Inv(s) && Enabled(s, e)
    ensures Inv(Apply(s, e))
  {
    hide Inv;
    match e {
      case Advance(t, polled) => AdvanceKeepsInv(s, t, polled);
      case NetworkWakes(t) => WakeKeepsInv(s, t);
      case Cancel(t) => CancelKeepsInv(s, t);
      case _ => CallKeepsInv(s, e);
    }
  }

  // ---------------------------------------------------------------- the queue for the lock

  predicate Waits(pc: Pc) {
    pc.WantLock? || pc.CloserWantLock?
  }

  predicate Distinct(queue: seq<Tid>) {
    forall i, j | 0 <= i < j < |queue| :: queue[i] != queue[j]
  }

  /** Exactly the threads that want the lock stand in the queue, once each. */
  ghost predicate QueueOk(s: State) {
    Distinct(s.queue) && forall t :: t in s.queue <==> Waits(At(s, t))
  }

  /** How many stand in front of `t`. */
  function Place(queue: seq<Tid>, t: Tid): (k: nat)
    requires t in queue
    ensures k < |queue| && queue[k] == t
  {
    if queue[0] == t then 0 else 1 + Place(queue[1..], t)
  }

  lemma {:induction false} LeaveKeeps(queue: seq<Tid>, t: Tid)
    requires Distinct(queue)
    ensures Distinct(Leave(queue, t))
    ensures forall u :: u in Leave(queue, t) <==> u in queue && u != t
    ensures forall u :: u in queue && u != t ==> Place(Leave(queue, t), u) <= Place(queue, u)
    ensures queue != [] && queue[0] == t ==>
              forall u :: u in queue && u != t ==> Place(Leave(queue, t), u) + 1 == Place(queue, u)
  {
    if queue != [] {
      var front, rest := queue[0], queue[1..];
      assert queue == [front] + rest;
      assert forall i | 0 <= i < |rest| :: rest[i] == queue[i + 1];
      assert front !in rest;
      if front != t {
        LeaveKeeps(rest, t);
        assert Leave(queue, t)[1..] == Leave(rest, t);
      }
    }
  }

  lemma {:induction false} JoinKeeps(queue: seq<Tid>, t: Tid)
    requires Distinct(queue) && t !in queue
    ensures Distinct(queue + [t])
    ensures forall u :: u in queue ==> Place(queue + [t], u) == Place(queue, u)
  {
    if queue != [] {
      var rest := queue[1..];
      assert queue == [queue[0]] + rest;
      assert forall i | 0 <= i < |rest| :: rest[i] == queue[i + 1];
      JoinKeeps(rest, t);
      assert (queue + [t])[1..] == rest + [t];
    }
  }

  /** One step of `t`: it joins the queue at the end, leaves it, or stays where it is; nobody else moves. */
  predicate Shifts(s: State, s': State, t: Tid) {
    && s'.threads == s.threads[t := At(s', t)]
    && if Waits(At(s, t)) then !Waits(At(s', t)) && s'.queue == Leave(s.queue, t)
       else if Waits(At(s', t)) then s'.queue == s.queue + [t]
       else s'.queue == s.queue
  }

  lemma ReturnShifts(s: State, t: Tid, late: bool, outcome: Outcome, after: State)
    requires !Waits(At(s, t)) && after.threads == s.threads && after.queue == s.queue
    ensures Shifts(s, Return(after, t, late, outcome), t)
  {
  }

  lemma CheckShifts(s: State, t: Tid, polled: Polled)
    requires At(s, t).CheckOpen? || At(s, t).LookInSlot?
    ensures Shifts(s, Access(s, t, polled), t)
  {
    ReturnShifts(s, t, At(s, t).late, GOT_CLOSED, s);
    hide Return, Leave;
  }

  lemma TellShifts(s: State, t: Tid, polled: Polled)
    requires At(s, t).PollSignal? && WillWake(s, t)
    ensures Shifts(s, Access(s, t, polled), t)
  {
    ReturnShifts(s, t, At(s, t).late, GOT_CLOSED, s.(waiter := None, streamOpen := false));
    ReturnShifts(s, t, At(s, t).late, GOT_CLOSED, s.(permit := false, streamOpen := false));
    hide Return, Leave, Shifts;
  }

  lemma RegisterShifts(s: State, t: Tid, polled: Polled)
    requires At(s, t).PollSignal? && !WillWake(s, t)
    ensures Shifts(s, Access(s, t, polled), t)
  {
  }

  lemma ParkedShifts(s: State, t: Tid, polled: Polled)
    requires At(s, t).Parked?
    ensures Shifts(s, Access(s, t, polled), t)
  {
  }

  lemma PollShifts(s: State, t: Tid, polled: Polled)
    requires At(s, t).PollStream?
    ensures Shifts(s, Access(s, t, polled), t)
  {
    var late := At(s, t).late;
    if polled.Chunk? {
      ReturnShifts(s, t, late, Ok(Some(polled.bytes)), s);
    }
    ReturnShifts(s, t, late, GOT_FAILURE, s.(streamOpen := false));
    ReturnShifts(s, t, late, GOT_END, s.(streamOpen := false));
    hide Return, Leave;
  }

  lemma WaiterShifts(s: State, t: Tid, polled: Polled)
    requires Waits(At(s, t))
    ensures Shifts(s, Access(s, t, polled), t)
  {
    hide Leave;
  }

  lemma CloserShifts(s: State, t: Tid, polled: Polled)
    requires var pc := At(s, t); pc.StoreClosed? || pc.CloserArrives? || pc.DropStream?
    ensures Shifts(s, Access(s, t, polled), t)
  {
    hide Leave;
  }

  lemma NotifyShifts(s: State, t: Tid, polled: Polled)
    requires At(s, t).NotifyOne?
    ensures Shifts(s, Access(s, t, polled), t)
  {
    hide Leave;
  }

  lemma AccessShifts(s: State, t: Tid, polled: Polled)
    requires At(s, t) != Idle
    ensures Shifts(s, Access(s, t, polled), t)
  {
    hide Access, Shifts;
    match At(s, t) {
      case WantLock(_) => WaiterShifts(s, t, polled);
      case CloserWantLock => WaiterShifts(s, t, polled);
      case CheckOpen(_) => CheckShifts(s, t, polled);
      case LookInSlot(_) => CheckShifts(s, t, polled);
      case PollStream(_) => PollShifts(s, t, polled);
      case PollSignal(_) =>
        if WillWake(s, t) {
          TellShifts(s, t, polled);
        } else {
          RegisterShifts(s, t, polled);
        }
      case Parked(_) => ParkedShifts(s, t, polled);
      case NotifyOne => NotifyShifts(s, t, polled);
      case _ => CloserShifts(s, t, polled);
    }
  }

  lemma CallShifts(s: State, e: Event)
    requires Enabled(s, e) && (e.CallNext? || e.CallClose? || e.NetworkWakes?)
    ensures Shifts(s, Apply(s, e), e.t)
  {
  }

  lemma QuitShifts(s: State, t: Tid)
    requires Waits(At(s, t))
    ensures Shifts(s, Apply(s, Cancel(t)), t)
  {
    hide Leave;
  }

  lemma AbandonShifts(s: State, t: Tid)
    requires At(s, t).Parked?
    ensures Shifts(s, Apply(s, Cancel(t)), t)
  {
    assert Apply(s, Cancel(t)) == Goto(DropWaiter(s), t, Idle).(lock := None);
    hide Apply, Leave;
  }

  lemma StepShifts(s: State, e: Event)
    requires Enabled(s, e)
    ensures Shifts(s, Apply(s, e), e.t)
  {
    hide Shifts, Access;
    match e {
      case Advance(t, polled) => AccessShifts(s, t, polled);
      case Cancel(t) =>
        if At(s, t).Parked? {
          AbandonShifts(s, t);
        } else {
          QuitShifts(s, t);
        }
      case _ => CallShifts(s, e);
    }
  }

  lemma StepKeepsQueue(s: State, e: Event)
    requires QueueOk(s) && Enabled(s, e)
    ensures QueueOk(Apply(s, e))
  {
    StepShifts(s, e);
    ShiftKeepsQueue(s, Apply(s, e), e.t);
  }

  lemma ShiftKeepsQueue(s: State, s': State, t: Tid)
    requires QueueOk(s) && Shifts(s, s', t)
    ensures QueueOk(s')
  {
    assert forall u | u != t :: At(s', u) == At(s, u);
    hide At, Leave, Place, Distinct;
    if Waits(At(s, t)) {
      LeaveKeeps(s.queue, t);
    } else {
      JoinKeeps(s.queue, t);
    }
  }

  lemma {:induction false} RunKeepsInv(s: State, run: seq<Event>)
    requires Inv(s) && QueueOk(s)
    ensures Execute(s, run).Some? ==> Inv(Execute(s, run).value) && QueueOk(Execute(s, run).value)
    decreases |run|
  {
    hide Enabled, Apply, Inv, QueueOk;
    if run != [] {
      var before := Execute(s, run[..|run| - 1]);
      RunKeepsInv(s, run[..|run| - 1]);
      if before.Some? && Enabled(before.value, run[|run| - 1]) {
        StepKeepsInv(before.value, run[|run| - 1]);
        StepKeepsQueue(before.value, run[|run| - 1]);
      }
    }
  }

  // ---------------------------------------------------------------- whole runs

  /** No lost wake-up: behind a finished `mark_closed`, a parked reader has been woken. */
  lemma NoLostWakeUp(run: seq<Event>, t: Tid)
    requires Execute(INIT, run).Some?
    ensures var s := Execute(INIT, run).value;
            && (s.signalled && At(s, t).Parked? ==> Enabled(s, Advance(t, Pending)))
            && (s.signalled && Reading(At(s, t)) ==> WillWake(s, t))
  {
    RunKeepsInv(INIT, run);
    assert ThreadOk(Execute(INIT, run).value, At(Execute(INIT, run).value, t), t);
  }

  /** How many accesses of its own a lock holder needs at most, once it will be woken. */
  function StepsLeft(pc: Pc): nat {
    match pc
    case PollStream(_) => 3
    case Parked(_) => 2
    case LookInSlot(_) => 2
    case _ => 1
  }

  /**
   Closing is never stuck: behind a finished `mark_closed`, whoever holds the lock can go on,
   needs nothing from the network, and lets go after at most three accesses.
   */
  lemma HolderLetsGo(run: seq<Event>, polled: Polled)
    requires Execute(INIT, run).Some?
    ensures var s := Execute(INIT, run).value;
            s.signalled && s.lock.Some? ==>
              var t := s.lock.value;
              var s' := Apply(s, Advance(t, polled));
              && Enabled(s, Advance(t, polled))
              && (s'.lock.None? || (s'.lock == Some(t) && StepsLeft(At(s', t)) < StepsLeft(At(s, t)) <= 3))
  {
    RunKeepsInv(INIT, run);
    var s := Execute(INIT, run).value;
    if s.signalled && s.lock.Some? {
      HolderStep(s, polled);
    }
  }

  /** Nobody else's step sets the holder back. */
  lemma OthersLeaveTheHolder(s: State, e: Event)
    requires Inv(s) && Enabled(s, e) && s.lock.Some? && e.t != s.lock.value
    ensures Apply(s, e).lock == s.lock && At(Apply(s, e), s.lock.value) == At(s, s.lock.value)
  {
    assert ThreadOk(s, At(s, e.t), e.t);
  }

  /** Whose access it takes to bring the lock on: its holder's, or that of the first in the queue. */
  function Turn(s: State): Option<Tid> {
    if s.lock.Some? then s.lock else if s.queue != [] then Some(s.queue[0]) else None
  }

  /** How many accesses in turn `t` still has to wait through: up to three of the holder, two for each in front. */
  function Waiting(s: State, t: Tid): nat
    requires t in s.queue
  {
    (if s.lock.Some? then StepsLeft(At(s, s.lock.value)) else 0) + 2 * Place(s.queue, t)
  }

  ghost predicate CloserWaits(s: State, t: Tid) {
    Inv(s) && QueueOk(s) && At(s, t) == CloserWantLock && t in s.queue
  }

  lemma HolderStep(s: State, polled: Polled)
    requires Inv(s) && s.signalled && s.lock.Some?
    ensures var t := s.lock.value;
            var s' := Apply(s, Advance(t, polled));
            && Enabled(s, Advance(t, polled))
            && s'.queue == s.queue
            && (s'.lock.None? || (s'.lock == Some(t) && StepsLeft(At(s', t)) < StepsLeft(At(s, t)) <= 3))
  {
    assert ThreadOk(s, At(s, s.lock.value), s.lock.value);
  }

  /** Taking the lock leaves one access to make: a reader finds `closed` set, a closer drops the stream. */
  lemma FirstStep(s: State, polled: Polled)
    requires QueueOk(s) && s.lock.None? && s.queue != []
    ensures var t := s.queue[0];
            var s' := Apply(s, Advance(t, polled));
            && Enabled(s, Advance(t, polled))
            && s'.lock == Some(t) && StepsLeft(At(s', t)) == 1
            && s'.queue == s.queue[1..]
  {
    assert Waits(At(s, s.queue[0]));
  }

  /** An access in turn can always be made, and shortens the wait. */
  lemma TurnShortens(s: State, t: Tid, polled: Polled)
    requires CloserWaits(s, t) && Turn(s) != Some(t)
    ensures Turn(s).Some? && Enabled(s, Advance(Turn(s).value, polled))
    ensures var s' := Apply(s, Advance(Turn(s).value, polled));
            CloserWaits(s', t) && Waiting(s', t) < Waiting(s, t)
  {
    assert ThreadOk(s, At(s, t), t);
    var u := Turn(s).value;
    if s.lock.Some? {
      HolderStep(s, polled);
      assert !Waits(At(s, u)) by {
        assert ThreadOk(s, At(s, u), u);
      }
    } else {
      FirstStep(s, polled);
    }
    var e := Advance(u, polled);
    StepKeepsInv(s, e);
    StepKeepsQueue(s, e);
    StepShifts(s, e);
    hide Inv, QueueOk, Apply, Enabled, StepsLeft, ThreadOk;
  }

  /** Any other step of another thread leaves the wait as it is, or shortens it. */
  lemma OthersDoNotDelay(s: State, t: Tid, e: Event)
    requires CloserWaits(s, t) && Enabled(s, e) && e.t != t
    ensures var s' := Apply(s, e);
            CloserWaits(s', t) && Waiting(s', t) <= Waiting(s, t)
  {
    if e.Advance? && Turn(s) == Some(e.t) {
      TurnShortens(s, t, e.polled);
    } else {
      StepKeepsInv(s, e);
      StepKeepsQueue(s, e);
      StepShifts(s, e);
      HolderNotDelayed(s, e);
      PlaceKept(s, Apply(s, e), e.t, t);
      hide Inv, QueueOk, Apply, Enabled, StepsLeft, Place, Leave, Waits;
    }
  }

  lemma PlaceKept(s: State, s': State, u: Tid, t: Tid)
    requires QueueOk(s) && Shifts(s, s', u) && t != u && t in s.queue
    ensures t in s'.queue && Place(s'.queue, t) <= Place(s.queue, t)
    ensures At(s', t) == At(s, t)
  {
    if Waits(At(s, u)) {
      LeaveKeeps(s.queue, u);
    } else {
      JoinKeeps(s.queue, u);
    }
  }

  /** The holder's own wake-up or cancellation included. */
  lemma HolderNotDelayed(s: State, e: Event)
    requires Inv(s) && Enabled(s, e) && !(e.Advance? && Turn(s) == Some(e.t))
    ensures var s' := Apply(s, e);
            s'.lock.Some? ==> s'.lock == s.lock && StepsLeft(At(s', s'.lock.value)) <= StepsLeft(At(s, s'.lock.value))
  {
    assert ThreadOk(s, At(s, e.t), e.t);
  }

  /** How many events of a run are accesses in turn. */
  function Turns(s: State, run: seq<Event>): nat {
    if run == [] then 0
    else
      var before, last := Execute(s, run[..|run| - 1]), run[|run| - 1];
      Turns(s, run[..|run| - 1])
      + if before.Some? && last.Advance? && Turn(before.value) == Some(last.t) then 1 else 0
  }

  lemma {:induction false} WaitShrinks(s: State, run: seq<Event>, t: Tid)
    requires CloserWaits(s, t) && Execute(s, run).Some? && forall e <- run :: e.t != t
    ensures var s' := Execute(s, run).value;
            CloserWaits(s', t) && Turns(s, run) + Waiting(s', t) <= Waiting(s, t)
    decreases |run|
  {
    hide CloserWaits, Waiting, Enabled, Apply;
    if run != [] {
      var front, last := run[..|run| - 1], run[|run| - 1];
      WaitShrinks(s, front, t);
      var before := Execute(s, front).value;
      OthersDoNotDelay(before, t, last);
      if last.Advance? && Turn(before) == Some(last.t) {
        TurnShortens(before, t, last.polled);
      }
    }
  }

  lemma WaitIsShort(s: State, t: Tid)
    requires Inv(s) && QueueOk(s) && At(s, t) == CloserWantLock
    ensures CloserWaits(s, t) && Waiting(s, t) <= 3 + 2 * Place(s.queue, t)
  {
  }

  lemma NothingLeft(s: State, t: Tid)
    requires CloserWaits(s, t) && Waiting(s, t) == 0
    ensures Turn(s) == Some(t)
  {
  }

  /**
   Closing is never stuck: a closer waiting for the lock gets it after at most three accesses of
   the holder and two of each thread in front of it, none of which waits for the network; until
   then there is always one that can be made, and then the closer's own.
   */
  lemma CloserGetsIn(run: seq<Event>, more: seq<Event>, t: Tid, polled: Polled)
    requires Execute(INIT, run).Some? && At(Execute(INIT, run).value, t) == CloserWantLock
    requires Execute(Execute(INIT, run).value, more).Some? && forall e <- more :: e.t != t
    ensures var s := Execute(INIT, run).value;
            var s' := Execute(s, more).value;
            && t in s.queue
            && Turns(s, more) <= Waiting(s, t) <= 3 + 2 * Place(s.queue, t)
            && Turn(s').Some?
            && Enabled(s', Advance(Turn(s').value, polled))
            && (Turns(s, more) == Waiting(s, t) ==> Turn(s') == Some(t))
  {
    RunKeepsInv(INIT, run);
    var s := Execute(INIT, run).value;
    WaitIsShort(s, t);
    hide Execute, Inv, QueueOk, Turns, Place, Waiting;
    WaitShrinks(s, more, t);
    var s' := Execute(s, more).value;
    if Waiting(s', t) == 0 {
      NothingLeft(s', t);
    }
    if Turn(s') != Some(t) {
      TurnShortens(s', t, polled);
    } else {
      ItsTurn(s', t, polled);
    }
  }

  lemma ItsTurn(s: State, t: Tid, polled: Polled)
    requires CloserWaits(s, t) && Turn(s) == Some(t)
    ensures Enabled(s, Advance(t, polled))
  {
    assert ThreadOk(s, At(s, t), t);
  }

  /**
   Closing is final: once a `close` has returned the stream is gone for good, and a
   `next_chunk` that began after `closed` was set reports the stream closed, never a chunk.
   */
  lemma CloseIsFinal(run: seq<Event>)
    requires Execute(INIT, run).Some?
    ensures var s := Execute(INIT, run).value;
            && (s.closedOnce ==> !s.streamOpen && s.closed)
            && (forall r :: r in s.results && r.late ==> r.outcome == GOT_CLOSED)
            && (s.closedOnce ==> forall t: Tid :: Apply(s, CallNext(t)).threads[t] == WantLock(true))
  {
    RunKeepsInv(INIT, run);
  }

  /** At most one thread at a time touches the stream. */
  lemma OneHolder(run: seq<Event>, t: Tid, u: Tid)
    requires Execute(INIT, run).Some?
    ensures var s := Execute(INIT, run).value;
            HoldsLock(At(s, t)) && HoldsLock(At(s, u)) ==> t == u
  {
    RunKeepsInv(INIT, run);
    var s := Execute(INIT, run).value;
    assert ThreadOk(s, At(s, t), t) && ThreadOk(s, At(s, u), u);
  }
}
