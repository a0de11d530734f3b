/**
 The process-wide runtime: a pointer installed by compare-and-swap, replaced after a
 fork, swapped out at shutdown. Threads are interleaved one atomic access at a time,
 with sequentially consistent atomics; a fork keeps the memory of the one thread that
 called it and changes the process id.
 */
module RuntimeSlot {
  import opened Prelude

  type Tid = nat
  type SlotId = nat

  /**
   A heap slot: the process id written into it, and its history. `generation` counts
   the forks before it was built, so it says which process the runtime really belongs to.
   */
  datatype Slot = Slot(
    pid: nat, generation: nat, builder: Tid,
    published: bool, freed: bool, hasRuntime: bool,
    shutdowns: nat, shutdownIn: Option<nat>, taker: Tid)

  /** The next access of a thread inside `handle`/`build`/`retract` or `shutdown`. */
  datatype Pc =
    | Idle
    | LoadClosed
    | ReadPid
    | LoadCurrent(pid: nat)
    | Build(seen: Option<SlotId>, pid: nat)
    | Install(seen: Option<SlotId>, pid: nat, slot: SlotId)
    | Recheck(slot: SlotId)
    | Unpublish(slot: SlotId)
    | Discard(slot: SlotId)
    | Lost(winner: Option<SlotId>, pid: nat, slot: SlotId)
    | StoreClosed
    | SwapOut
    | TakeRuntime(swapped: Option<SlotId>)

  /** A handle given out: of which slot, in which process, whether shutdown had begun, and to whom. */
  datatype Returned = Returned(generation: nat, slot: SlotId, closed: bool, caller: Tid)

  datatype State = State(
    current: Option<SlotId>, closed: bool, pid: nat, generation: nat,
    slots: seq<Slot>, threads: map<Tid, Pc>, returned: seq<Returned>, closer: Tid)

  datatype Event =
    | CallHandle(t: Tid)
    | CallShutdown(t: Tid)
    | Advance(t: Tid, buildOk: bool)
    | Fork(t: Tid, newPid: nat)

  function Init(pid: nat): State {
    State(None, false, pid, 0, [], map[], [], 0)
  }

  function At(s: State, t: Tid): Pc {
    if t in s.threads then s.threads[t] else Idle
  }

  function Goto(s: State, t: Tid, pc: Pc): State {
    s.(threads := s.threads[t := pc])
  }

  function Return(s: State, t: Tid, slot: SlotId): State {
    Goto(s, t, Idle).(returned := s.returned + [Returned(s.generation, slot, s.closed, t)])
  }

  /** `slot_for` */
  predicate BelongsTo(s: State, at: Option<SlotId>, pid: nat) {
    at.Some? && at.value < |s.slots| && s.slots[at.value].pid == pid
  }

  function TakeOut(s: State, x: SlotId): State
    requires x < |s.slots|
  {
    var slot := s.slots[x];
    if !slot.hasRuntime then s
    else s.(slots := s.slots[x := slot.(hasRuntime := false, shutdowns := slot.shutdowns + 1,
                                        shutdownIn := Some(s.generation))])
  }

  predicate Enabled(s: State, e: Event) {
    match e
    case CallHandle(t) => At(s, t) == Idle
    case CallShutdown(t) => At(s, t) == Idle
    case Advance(t, _) => At(s, t) != Idle
    case Fork(t, newPid) => At(s, t) == Idle && newPid != s.pid
  }

  /** One atomic access of thread `t`. */
  function Access(s: State, t: Tid, buildOk: bool): State {
    match At(s, t)
    case Idle => s
    case LoadClosed => Goto(s, t, if s.closed then Idle else ReadPid)
    case ReadPid => Goto(s, t, LoadCurrent(s.pid))
    case LoadCurrent(pid) =>
      if BelongsTo(s, s.current, pid) then Return(s, t, s.current.value)
      else Goto(s, t, Build(s.current, pid))
    case Build(seen, pid) =>
      if !buildOk then Goto(s, t, Idle)
      else
        var slot := Slot(pid, s.generation, t, false, false, true, 0, None, 0);
        Goto(s.(slots := s.slots + [slot]), t, Install(seen, pid, |s.slots|))
    case Install(seen, pid, x) =>
      if s.current != seen || x >= |s.slots| then Goto(s, t, Lost(s.current, pid, x))
      else Goto(s.(current := Some(x), slots := s.slots[x := s.slots[x].(published := true)]), t, Recheck(x))
    case Recheck(x) => if s.closed then Goto(s, t, Unpublish(x)) else Return(s, t, x)
    case Unpublish(x) => Goto(if s.current == Some(x) then s.(current := None) else s, t, Discard(x))
    case Discard(x) => Goto(if x < |s.slots| then TakeOut(s, x) else s, t, Idle)
    case Lost(winner, pid, x) =>
      var freed := if x < |s.slots| then s.(slots := s.slots[x := s.slots[x].(freed := true)]) else s;
      if BelongsTo(s, winner, pid) then Return(freed, t, winner.value) else Goto(freed, t, Build(winner, pid))
    case StoreClosed => Goto(s.(closed := true, closer := t), t, SwapOut)
    case SwapOut =>
      var out := s.(current := None);
      Goto(if s.current.Some? && s.current.value < |s.slots|
           then out.(slots := s.slots[s.current.value := s.slots[s.current.value].(taker := t)]) else out,
           t, TakeRuntime(s.current))
    case TakeRuntime(swapped) =>
      Goto(if BelongsTo(s, swapped, s.pid) then TakeOut(s, swapped.value) else s, t, Idle)
  }

  function Apply(s: State, e: Event): State {
    match e
    case CallHandle(t) => Goto(s, t, LoadClosed)
    case CallShutdown(t) => Goto(s, t, StoreClosed)
    case Advance(t, buildOk) => Access(s, t, buildOk)
    case Fork(t, newPid) => s.(pid := newPid, generation := s.generation + 1, threads := map[])
  }

  /** The state after a run, if every step was possible. */
  function Execute(s: State, run: seq<Event>): Option<State> {
    if run == [] then Some(s)
    else match Execute(s, run[..|run| - 1])
      case None => None
      case Some(before) =>
        if Enabled(before, run[|run| - 1]) then Some(Apply(before, run[|run| - 1])) else None
  }

  // ---------------------------------------------------------------- what every step keeps

  predicate Published(s: State, x: SlotId) {
    x < |s.slots| && s.slots[x].published
  }

  predicate Mine(s: State, t: Tid, x: SlotId) {
    x < |s.slots| && s.slots[x].builder == t && s.slots[x].generation == s.generation
  }

  /** A pointer that was found to belong to another process. */
  predicate Stale(s: State, at: Option<SlotId>) {
    at.Some? ==> Published(s, at.value) && s.slots[at.value].pid != s.pid
  }

  predicate ThreadOk(s: State, pc: Pc, t: Tid) {
    match pc
    case Idle => true
    case LoadClosed => true
    case ReadPid => true
    case StoreClosed => true
    case LoadCurrent(pid) => pid == s.pid
    case Build(seen, pid) => pid == s.pid && Stale(s, seen)
    case Install(seen, pid, x) =>
      pid == s.pid && Stale(s, seen) && Mine(s, t, x)
      && !s.slots[x].published && !s.slots[x].freed && s.slots[x].hasRuntime
    case Recheck(x) => Mine(s, t, x) && Published(s, x) && (s.closed || s.current == Some(x))
    case Unpublish(x) => Mine(s, t, x) && Published(s, x) && s.closed
    case Discard(x) => Mine(s, t, x) && Published(s, x) && s.closed && s.current != Some(x)
    case Lost(winner, pid, x) =>
      pid == s.pid && (winner.Some? ==> Published(s, winner.value))
      && Mine(s, t, x) && !s.slots[x].published && !s.slots[x].freed
      && (BelongsTo(s, winner, pid) && !s.closed ==> s.current == winner)
    case SwapOut => s.closed
    case TakeRuntime(swapped) => s.closed && (swapped.Some? ==> Published(s, swapped.value))
  }

  /** Who still has to take the runtime out of a published slot that has left `current`. */
  predicate TakenCareOf(s: State, x: SlotId)
    requires x < |s.slots|
  {
    || s.current == Some(x)
    || At(s, s.slots[x].taker) == TakeRuntime(Some(x))
    || At(s, s.slots[x].builder) == Discard(x)
  }

  predicate SlotOk(s: State, x: SlotId)
    requires x < |s.slots|
  {
    var slot := s.slots[x];
    && slot.generation <= s.generation
    && (slot.generation == s.generation ==> slot.pid == s.pid)
    && slot.shutdowns == (if slot.hasRuntime then 0 else 1)
    && (slot.shutdownIn.Some? <==> !slot.hasRuntime)
    && !(slot.freed && slot.published)
    && (!slot.published ==> slot.hasRuntime)
    && (slot.published && slot.generation == s.generation && slot.hasRuntime ==> TakenCareOf(s, x))
  }

  /** Once shutdown has begun, a runtime of this process in `current` has a remover on its way. */
  predicate CurrentOk(s: State) {
    s.current.Some? ==>
      && Published(s, s.current.value)
      && (s.closed && s.slots[s.current.value].generation == s.generation ==>
            var x := s.current.value;
            || At(s, s.closer) == SwapOut
            || At(s, s.slots[x].builder) == Recheck(x)
            || At(s, s.slots[x].builder) == Unpublish(x))
  }

  predicate Early(s: State, r: Returned, generation: nat) {
    r in s.returned && r.generation == generation && !r.closed
  }

  ghost predicate LogOk(s: State) {
    && (forall r: Returned :: r in s.returned ==>
          r.generation <= s.generation && r.slot < |s.slots| && s.slots[r.slot].published)
    && (forall r: Returned :: Early(s, r, s.generation) ==>
          s.slots[r.slot].pid == s.pid && (s.closed || s.current == Some(r.slot)))
    && (forall r: Returned, q: Returned :: Early(s, r, r.generation) && Early(s, q, r.generation) ==> r.slot == q.slot)
  }

  ghost predicate Inv(s: State) {
    && CurrentOk(s)
    && (forall t :: ThreadOk(s, At(s, t), t))
    && (forall x :: 0 <= x < |s.slots| ==> SlotOk(s, x))
    && LogOk(s)
  }

  lemma InitInv(pid: nat)
    ensures Inv(Init(pid))
  {
  }

  /** Accesses that leave nobody responsible for anything, and so may be left behind. */
  predicate Unburdened(pc: Pc) {
    || pc.Idle? || pc.LoadClosed? || pc.ReadPid? || pc.LoadCurrent? || pc.Build? || pc.Install? || pc.Lost?
    || pc.StoreClosed?
  }

  /** Moving on without touching shared memory. */
  lemma MoveKeepsInv(s: State, t: Tid, pc: Pc)
    requires Inv(s) && ThreadOk(s, pc, t)
    requires Unburdened(At(s, t)) || exists x :: At(s, t) == Recheck(x) && pc == Unpublish(x)
    ensures Inv(Goto(s, t, pc))
  {
    var s' := Goto(s, t, pc);
    forall u
      ensures ThreadOk(s', At(s', u), u)
    {
      assert ThreadOk(s, At(s, u), u);
    }
    forall x | 0 <= x < |s'.slots|
      ensures SlotOk(s', x)
    {
      assert SlotOk(s, x);
    }
    SameLog(s, s');
  }

  lemma SameLog(s: State, s': State)
    requires LogOk(s) && s'.returned == s.returned && s'.generation == s.generation && s'.pid == s.pid
    requires |s.slots| <= |s'.slots|
    requires forall x :: 0 <= x < |s.slots| ==>
               s'.slots[x].pid == s.slots[x].pid && (s.slots[x].published ==> s'.slots[x].published)
    requires s.closed ==> s'.closed
    requires s'.closed || s'.current == s.current
             || (s.current.Some? ==> Published(s, s.current.value) && s.slots[s.current.value].pid != s.pid)
    ensures LogOk(s')
  {
    forall r: Returned | Early(s', r, s'.generation)
      ensures s'.slots[r.slot].pid == s'.pid && (s'.closed || s'.current == Some(r.slot))
    {
      assert Early(s, r, s.generation);
    }
    forall r: Returned, q: Returned | Early(s', r, r.generation) && Early(s', q, r.generation)
      ensures r.slot == q.slot
    {
      assert Early(s, r, r.generation) && Early(s, q, r.generation);
    }
  }

  lemma ForkKeepsInv(s: State, newPid: nat)
    requires Inv(s)
    ensures Inv(s.(pid := newPid, generation := s.generation + 1, threads := map[]))
  {
    var s' := s.(pid := newPid, generation := s.generation + 1, threads := map[]);
    forall x | 0 <= x < |s'.slots|
      ensures SlotOk(s', x)
    {
      assert SlotOk(s, x);
    }
    forall r: Returned, q: Returned | Early(s', r, r.generation) && Early(s', q, r.generation)
      ensures r.slot == q.slot
    {
      assert Early(s, r, r.generation) && Early(s, q, r.generation);
    }
    if s.current.Some? {
      assert SlotOk(s, s.current.value);
    }
  }

  predicate MayReturn(s: State, t: Tid, x: SlotId) {
    && (Unburdened(At(s, t)) || (At(s, t) == Recheck(x) && !s.closed))
    && Published(s, x) && s.slots[x].pid == s.pid && (s.closed || s.current == Some(x))
  }

  lemma ReturnThread(s: State, t: Tid, x: SlotId, u: Tid)
    requires Inv(s) && MayReturn(s, t, x)
    ensures ThreadOk(Return(s, t, x), At(Return(s, t, x), u), u)
  {
    assert ThreadOk(s, At(s, u), u);
    hide Inv;
  }

  lemma ReturnSlot(s: State, t: Tid, x: SlotId, y: SlotId)
    requires Inv(s) && MayReturn(s, t, x) && y < |s.slots|
    ensures SlotOk(Return(s, t, x), y)
  {
    assert SlotOk(s, y);
    hide Inv;
  }

  lemma ReturnCurrent(s: State, t: Tid, x: SlotId)
    requires Inv(s) && MayReturn(s, t, x)
    ensures CurrentOk(Return(s, t, x)) && LogOk(Return(s, t, x))
  {
    LogReturn(s, Returned(s.generation, x, s.closed, t));
    assert CurrentOk(s);
    hide Inv;
  }

  /** Giving out the slot in `current`, or one just installed while nothing was closed. */
  lemma ReturnKeepsInv(s: State, t: Tid, x: SlotId)
    requires Inv(s) && MayReturn(s, t, x)
    ensures Inv(Return(s, t, x))
  {
    var s' := Return(s, t, x);
    assert |s'.slots| == |s.slots|;
    ReturnCurrent(s, t, x);
    hide CurrentOk, ThreadOk, SlotOk, LogOk, Return, At, MayReturn;
    forall u
      ensures ThreadOk(s', At(s', u), u)
    {
      ReturnThread(s, t, x, u);
    }
    forall y | 0 <= y < |s'.slots|
      ensures SlotOk(s', y)
    {
      ReturnSlot(s, t, x, y);
    }
  }

  lemma LogReturn(s: State, last: Returned)
    requires LogOk(s) && last.generation == s.generation && last.closed == s.closed
    requires Published(s, last.slot) && s.slots[last.slot].pid == s.pid && (s.closed || s.current == Some(last.slot))
    ensures LogOk(s.(returned := s.returned + [last]))
  {
    var s' := s.(returned := s.returned + [last]);
    forall r: Returned | r in s'.returned
      ensures r == last || r in s.returned
    {
    }
    forall r: Returned | Early(s', r, s'.generation)
      ensures s'.slots[r.slot].pid == s'.pid && (s'.closed || s'.current == Some(r.slot))
    {
      assert r != last ==> Early(s, r, s.generation);
    }
    forall r: Returned, q: Returned | Early(s', r, r.generation) && Early(s', q, r.generation)
      ensures r.slot == q.slot
    {
      assert r != last ==> Early(s, r, r.generation);
      assert q != last ==> Early(s, q, r.generation);
      assert r != last && r.generation == s.generation ==> Early(s, r, s.generation);
      assert q != last && q.generation == s.generation ==> Early(s, q, s.generation);
    }
  }

  lemma BuildKeepsInv(s: State, t: Tid)
    requires Inv(s) && At(s, t).Build?
    ensures Inv(Access(s, t, true))
  {
    var s' := Access(s, t, true);
    assert ThreadOk(s, At(s, t), t);
    forall u
      ensures ThreadOk(s', At(s', u), u)
    {
      assert ThreadOk(s, At(s, u), u);
    }
    forall y | 0 <= y < |s'.slots|
      ensures SlotOk(s', y)
    {
      assert y < |s.slots| ==> SlotOk(s, y);
    }
    SameLog(s, s');
  }

  lemma PublishThread(s: State, t: Tid, x: SlotId, u: Tid)
    requires Inv(s) && At(s, t).Install? && At(s, t).slot == x && s.current == At(s, t).seen
    ensures var s' := Access(s, t, true); ThreadOk(s', At(s', u), u)
  {
    assert ThreadOk(s, At(s, t), t) && ThreadOk(s, At(s, u), u);
    assert SlotOk(s, x);
    assert At(s, u).Recheck? ==> SlotOk(s, At(s, u).slot);
    hide Inv, SlotOk;
  }

  /** A successful compare-and-swap displaces nothing of this process. */
  lemma PublishKeepsInv(s: State, t: Tid, x: SlotId)
    requires Inv(s) && At(s, t).Install? && At(s, t).slot == x && s.current == At(s, t).seen
    ensures Inv(Access(s, t, true)) && Access(s, t, true).current == Some(x)
    ensures s.current.Some? ==> Published(s, s.current.value) && s.slots[s.current.value].generation != s.generation
  {
    var s' := Access(s, t, true);
    assert ThreadOk(s, At(s, t), t);
    assert SlotOk(s, x) && (s.current.Some? ==> SlotOk(s, s.current.value));
    forall y | 0 <= y < |s'.slots|
      ensures SlotOk(s', y)
    {
      assert y < |s.slots| ==> SlotOk(s, y);
    }
    SameLog(s, s');
    assert CurrentOk(s');
    hide ThreadOk, SlotOk, LogOk, CurrentOk, Access;
    forall u
      ensures ThreadOk(s', At(s', u), u)
    {
      PublishThread(s, t, x, u);
    }
  }

  lemma UnpublishKeepsInv(s: State, t: Tid, x: SlotId)
    requires Inv(s) && At(s, t) == Unpublish(x)
    ensures Inv(Access(s, t, true))
  {
    var s' := Access(s, t, true);
    assert ThreadOk(s, At(s, t), t);
    forall u
      ensures ThreadOk(s', At(s', u), u)
    {
      assert ThreadOk(s, At(s, u), u);
    }
    forall y | 0 <= y < |s'.slots|
      ensures SlotOk(s', y)
    {
      assert y < |s.slots| ==> SlotOk(s, y);
    }
    SameLog(s, s');
  }

  predicate MayTake(s: State, t: Tid, x: SlotId) {
    Published(s, x) && (At(s, t) == Discard(x) || At(s, t) == TakeRuntime(Some(x)))
  }

  lemma TakeThread(s: State, t: Tid, x: SlotId, u: Tid)
    requires Inv(s) && MayTake(s, t, x)
    ensures var s' := Goto(TakeOut(s, x), t, Idle); ThreadOk(s', At(s', u), u)
  {
    assert ThreadOk(s, At(s, u), u) && SlotOk(s, x);
    hide Inv;
  }

  lemma TakeSlot(s: State, t: Tid, x: SlotId, y: SlotId)
    requires Inv(s) && MayTake(s, t, x) && y < |s.slots|
    ensures SlotOk(Goto(TakeOut(s, x), t, Idle), y)
  {
    assert SlotOk(s, y) && SlotOk(s, x);
    hide Inv;
  }

  lemma TakeCurrent(s: State, t: Tid, x: SlotId)
    requires Inv(s) && MayTake(s, t, x)
    ensures var s' := Goto(TakeOut(s, x), t, Idle); CurrentOk(s') && LogOk(s') && |s'.slots| == |s.slots|
  {
    var s' := Goto(TakeOut(s, x), t, Idle);
    assert CurrentOk(s) && LogOk(s);
    SameLog(s, s');
    hide Inv, LogOk;
  }

  /** Taking a runtime out, by whoever reaches it first. */
  lemma TakeOutKeepsInv(s: State, t: Tid, x: SlotId)
    requires Inv(s) && MayTake(s, t, x)
    ensures Inv(Goto(TakeOut(s, x), t, Idle))
  {
    var s' := Goto(TakeOut(s, x), t, Idle);
    TakeCurrent(s, t, x);
    hide CurrentOk, ThreadOk, SlotOk, LogOk, Goto, TakeOut, At, MayTake;
    forall u
      ensures ThreadOk(s', At(s', u), u)
    {
      TakeThread(s, t, x, u);
    }
    forall y | 0 <= y < |s'.slots|
      ensures SlotOk(s', y)
    {
      TakeSlot(s, t, x, y);
    }
  }

  /** Nothing to take: no slot, or one of another process. */
  lemma LeaveKeepsInv(s: State, t: Tid, swapped: Option<SlotId>)
    requires Inv(s) && At(s, t) == TakeRuntime(swapped) && !BelongsTo(s, swapped, s.pid)
    ensures Inv(Goto(s, t, Idle))
  {
    var s' := Goto(s, t, Idle);
    assert ThreadOk(s, At(s, t), t);
    assert swapped.Some? ==> SlotOk(s, swapped.value);
    forall u
      ensures ThreadOk(s', At(s', u), u)
    {
      assert ThreadOk(s, At(s, u), u);
    }
    forall y | 0 <= y < |s'.slots|
      ensures SlotOk(s', y)
    {
      assert y < |s.slots| ==> SlotOk(s, y);
    }
    SameLog(s, s');
  }

  lemma FreeKeepsInv(s: State, t: Tid, x: SlotId)
    requires Inv(s) && At(s, t).Lost? && At(s, t).slot == x
    ensures x < |s.slots| && Inv(Goto(s.(slots := s.slots[x := s.slots[x].(freed := true)]), t, Idle))
  {
    assert ThreadOk(s, At(s, t), t);
    var s' := Goto(s.(slots := s.slots[x := s.slots[x].(freed := true)]), t, Idle);
    forall u
      ensures ThreadOk(s', At(s', u), u)
    {
      assert ThreadOk(s, At(s, u), u);
    }
    forall y | 0 <= y < |s'.slots|
      ensures SlotOk(s', y)
    {
      assert y < |s.slots| ==> SlotOk(s, y);
    }
    SameLog(s, s');
  }

  lemma LostKeepsInv(s: State, t: Tid)
    requires Inv(s) && At(s, t).Lost?
    ensures Inv(Access(s, t, true))
  {
    var pc := At(s, t);
    assert ThreadOk(s, pc, t);
    FreeKeepsInv(s, t, pc.slot);
    var freed := s.(slots := s.slots[pc.slot := s.slots[pc.slot].(freed := true)]);
    var after := Goto(freed, t, Idle);
    if BelongsTo(s, pc.winner, pc.pid) {
      ReturnKeepsInv(after, t, pc.winner.value);
      assert Return(after, t, pc.winner.value).threads == Return(freed, t, pc.winner.value).threads;
    } else {
      MoveKeepsInv(after, t, Build(pc.winner, pc.pid));
      assert Goto(after, t, Build(pc.winner, pc.pid)).threads == Goto(freed, t, Build(pc.winner, pc.pid)).threads;
    }
  }

  lemma CloseKeepsInv(s: State, t: Tid)
    requires Inv(s) && At(s, t) == StoreClosed
    ensures Inv(Access(s, t, true))
  {
    var s' := Access(s, t, true);
    forall u
      ensures ThreadOk(s', At(s', u), u)
    {
      assert ThreadOk(s, At(s, u), u);
    }
    forall y | 0 <= y < |s'.slots|
      ensures SlotOk(s', y)
    {
      assert y < |s.slots| ==> SlotOk(s, y);
    }
    SameLog(s, s');
  }

  lemma SwapThread(s: State, t: Tid, u: Tid)
    requires Inv(s) && At(s, t) == SwapOut
    ensures var s' := Access(s, t, true); ThreadOk(s', At(s', u), u)
  {
    assert ThreadOk(s, At(s, t), t) && ThreadOk(s, At(s, u), u) && CurrentOk(s);
    hide Inv;
  }

  lemma SwapSlot(s: State, t: Tid, y: SlotId)
    requires Inv(s) && At(s, t) == SwapOut && y < |s.slots|
    ensures |Access(s, t, true).slots| == |s.slots| && SlotOk(Access(s, t, true), y)
  {
    assert SlotOk(s, y) && CurrentOk(s);
    hide Inv;
  }

  lemma SwapLog(s: State, t: Tid)
    requires Inv(s) && At(s, t) == SwapOut
    ensures LogOk(Access(s, t, true))
  {
    assert ThreadOk(s, At(s, t), t) && CurrentOk(s) && LogOk(s);
    hide Inv, LogOk;
    SameLog(s, Access(s, t, true));
  }

  /** What shutdown swaps out has it as its taker. */
  lemma SwapKeepsInv(s: State, t: Tid)
    requires Inv(s) && At(s, t) == SwapOut
    ensures var s' := Access(s, t, true);
            && Inv(s') && s'.current == None && At(s', t) == TakeRuntime(s.current)
            && (s.current.Some? ==> Published(s', s.current.value) && s'.slots[s.current.value].taker == t)
  {
    var s' := Access(s, t, true);
    assert CurrentOk(s);
    assert CurrentOk(s') && |s'.slots| == |s.slots|;
    assert s.current.Some? ==> Published(s', s.current.value) && s'.slots[s.current.value].taker == t;
    assert At(s', t) == TakeRuntime(s.current);
    SwapLog(s, t);
    hide CurrentOk, ThreadOk, SlotOk, LogOk, Access, At, Published;
    forall u
      ensures ThreadOk(s', At(s', u), u)
    {
      SwapThread(s, t, u);
    }
    forall y | 0 <= y < |s'.slots|
      ensures SlotOk(s', y)
    {
      SwapSlot(s, t, y);
    }
  }

  lemma StepKeepsInv(s: State, e: Event)
    requires Inv(s) && Enabled(s, e)
    ensures Inv(Apply(s, e))
  {
    match e
    case CallHandle(t) => MoveKeepsInv(s, t, LoadClosed);
    case CallShutdown(t) => MoveKeepsInv(s, t, StoreClosed);
    case Fork(t, newPid) => ForkKeepsInv(s, newPid);
    case Advance(t, buildOk) => AccessKeepsInv(s, t, buildOk);
  }

  lemma AccessKeepsInv(s: State, t: Tid, buildOk: bool)
    requires Inv(s)
    ensures Inv(Access(s, t, buildOk))
  {
    assert CurrentOk(s) && ThreadOk(s, At(s, t), t);
    assert forall x :: 0 <= x < |s.slots| ==> SlotOk(s, x);
    hide Inv, Goto, Return, TakeOut;
    match At(s, t)
    case Idle =>
    case LoadClosed => MoveKeepsInv(s, t, if s.closed then Idle else ReadPid);
    case ReadPid => MoveKeepsInv(s, t, LoadCurrent(s.pid));
    case LoadCurrent(pid) =>
      if BelongsTo(s, s.current, pid) {
        ReturnKeepsInv(s, t, s.current.value);
      } else {
        MoveKeepsInv(s, t, Build(s.current, pid));
      }
    case Build(seen, pid) =>
      if buildOk {
        BuildKeepsInv(s, t);
      } else {
        MoveKeepsInv(s, t, Idle);
      }
    case Install(seen, pid, x) =>
      if s.current == seen {
        PublishKeepsInv(s, t, x);
      } else {
        MoveKeepsInv(s, t, Lost(s.current, pid, x));
      }
    case Recheck(x) =>
      if s.closed {
        MoveKeepsInv(s, t, Unpublish(x));
      } else {
        assert SlotOk(s, x);
        ReturnKeepsInv(s, t, x);
      }
    case Unpublish(x) => UnpublishKeepsInv(s, t, x);
    case Discard(x) => TakeOutKeepsInv(s, t, x);
    case Lost(winner, pid, x) => LostKeepsInv(s, t);
    case StoreClosed => CloseKeepsInv(s, t);
    case SwapOut => SwapKeepsInv(s, t);
    case TakeRuntime(swapped) =>
      if BelongsTo(s, swapped, s.pid) {
        TakeOutKeepsInv(s, t, swapped.value);
      } else {
        LeaveKeepsInv(s, t, swapped);
      }
  }

  // ---------------------------------------------------------------- whole runs

  lemma {:induction false} RunKeepsInv(s: State, run: seq<Event>)
    requires Inv(s)
    ensures Execute(s, run).Some? ==> Inv(Execute(s, run).value)
    decreases |run|
  {
    hide Inv, Enabled, Apply;
    if run != [] {
      var before := Execute(s, run[..|run| - 1]);
      RunKeepsInv(s, run[..|run| - 1]);
      if before.Some? && Enabled(before.value, run[|run| - 1]) {
        StepKeepsInv(before.value, run[|run| - 1]);
      }
    }
  }

  // ---------------------------------------------------------------- slots not published

  /** A slot this process built and neither published nor freed is still in its builder's hand. */
  predicate InHand(s: State, x: SlotId)
    requires x < |s.slots|
  {
    var slot := s.slots[x];
    var pc := At(s, slot.builder);
    !slot.published && !slot.freed && slot.generation == s.generation ==>
      (pc.Install? || pc.Lost?) && pc.slot == x
  }

  ghost predicate HandsOk(s: State) {
    forall x :: 0 <= x < |s.slots| ==> InHand(s, x)
  }

  lemma BuilderHand(s: State, t: Tid, buildOk: bool, x: SlotId)
    requires At(s, t).Build? || At(s, t).Install? || At(s, t).Lost?
    requires ThreadOk(s, At(s, t), t) && (x < |s.slots| ==> InHand(s, x))
    requires x < |Access(s, t, buildOk).slots|
    ensures InHand(Access(s, t, buildOk), x)
  {
  }

  lemma TakerHand(s: State, t: Tid, buildOk: bool, x: SlotId)
    requires At(s, t).Discard? || At(s, t).TakeRuntime? || At(s, t).SwapOut?
    requires ThreadOk(s, At(s, t), t) && x < |s.slots| && InHand(s, x)
    ensures |Access(s, t, buildOk).slots| == |s.slots| && InHand(Access(s, t, buildOk), x)
  {
  }

  lemma OtherHand(s: State, t: Tid, buildOk: bool, x: SlotId)
    requires var pc := At(s, t);
             || pc.Idle? || pc.LoadClosed? || pc.ReadPid? || pc.LoadCurrent? || pc.Recheck? || pc.Unpublish?
             || pc.StoreClosed?
    requires x < |s.slots| && InHand(s, x)
    ensures |Access(s, t, buildOk).slots| == |s.slots| && InHand(Access(s, t, buildOk), x)
  {
  }

  lemma AccessHand(s: State, t: Tid, buildOk: bool, x: SlotId)
    requires Inv(s) && HandsOk(s) && x < |Access(s, t, buildOk).slots|
    ensures InHand(Access(s, t, buildOk), x)
  {
    assert ThreadOk(s, At(s, t), t);
    assert x < |s.slots| ==> InHand(s, x);
    var pc := At(s, t);
    if pc.Build? || pc.Install? || pc.Lost? {
      hide Inv, HandsOk, Access, InHand, ThreadOk;
      BuilderHand(s, t, buildOk, x);
    } else {
      SlotsKept(s, t, buildOk);
      hide Inv, HandsOk, Access, InHand, ThreadOk;
      if pc.Discard? || pc.TakeRuntime? || pc.SwapOut? {
        TakerHand(s, t, buildOk, x);
      } else {
        OtherHand(s, t, buildOk, x);
      }
    }
  }

  lemma SlotsKept(s: State, t: Tid, buildOk: bool)
    requires !At(s, t).Build?
    ensures |Access(s, t, buildOk).slots| == |s.slots|
  {
  }

  lemma StepKeepsHands(s: State, e: Event)
    requires Inv(s) && HandsOk(s) && Enabled(s, e)
    ensures HandsOk(Apply(s, e))
  {
    var s' := Apply(s, e);
    forall x | 0 <= x < |s'.slots|
      ensures InHand(s', x)
    {
      if e.Advance? {
        AccessHand(s, e.t, e.buildOk, x);
      } else {
        assert SlotOk(s, x) && InHand(s, x);
      }
    }
  }

  lemma {:induction false} RunKeepsHands(s: State, run: seq<Event>)
    requires Inv(s) && HandsOk(s)
    ensures Execute(s, run).Some? ==> HandsOk(Execute(s, run).value)
    decreases |run|
  {
    hide Inv, HandsOk, Enabled, Apply;
    if run != [] {
      var before := Execute(s, run[..|run| - 1]);
      RunKeepsInv(s, run[..|run| - 1]);
      RunKeepsHands(s, run[..|run| - 1]);
      if before.Some? && Enabled(before.value, run[|run| - 1]) {
        StepKeepsHands(before.value, run[|run| - 1]);
      }
    }
  }

  // ---------------------------------------------------------------- the runtime in `current`

  /** What a shutdown has swapped out never comes back into `current`. */
  predicate LeftCurrent(s: State, pc: Pc) {
    pc.TakeRuntime? && pc.swapped.Some? ==> s.current != pc.swapped
  }

  /** Whatever is in `current` still has its runtime. */
  predicate LiveAt(s: State) {
    s.current.Some? ==> Published(s, s.current.value) && s.slots[s.current.value].hasRuntime
  }

  ghost predicate LiveOk(s: State) {
    LiveAt(s) && forall t :: LeftCurrent(s, At(s, t))
  }

  lemma BuilderLeft(s: State, t: Tid, buildOk: bool, u: Tid)
    requires At(s, t).Build? || At(s, t).Install? || At(s, t).Lost?
    requires ThreadOk(s, At(s, t), t) && ThreadOk(s, At(s, u), u) && LeftCurrent(s, At(s, u))
    ensures LeftCurrent(Access(s, t, buildOk), At(Access(s, t, buildOk), u))
  {
    hide Stale, BelongsTo;
  }

  lemma TakerLeft(s: State, t: Tid, buildOk: bool, u: Tid)
    requires At(s, t).Discard? || At(s, t).TakeRuntime? || At(s, t).SwapOut?
    requires LeftCurrent(s, At(s, u))
    ensures LeftCurrent(Access(s, t, buildOk), At(Access(s, t, buildOk), u))
  {
    hide BelongsTo;
  }

  lemma OtherLeft(s: State, t: Tid, buildOk: bool, u: Tid)
    requires var pc := At(s, t);
             || pc.Idle? || pc.LoadClosed? || pc.ReadPid? || pc.LoadCurrent? || pc.Recheck? || pc.Unpublish?
             || pc.StoreClosed?
    requires LeftCurrent(s, At(s, u))
    ensures LeftCurrent(Access(s, t, buildOk), At(Access(s, t, buildOk), u))
  {
    hide BelongsTo;
  }

  lemma AccessLeft(s: State, t: Tid, buildOk: bool, u: Tid)
    requires Inv(s) && LiveOk(s)
    ensures LeftCurrent(Access(s, t, buildOk), At(Access(s, t, buildOk), u))
  {
    assert ThreadOk(s, At(s, t), t) && ThreadOk(s, At(s, u), u) && LeftCurrent(s, At(s, u));
    hide Inv, LiveOk, Access, LeftCurrent, ThreadOk;
    var pc := At(s, t);
    if pc.Build? || pc.Install? || pc.Lost? {
      BuilderLeft(s, t, buildOk, u);
    } else if pc.Discard? || pc.TakeRuntime? || pc.SwapOut? {
      TakerLeft(s, t, buildOk, u);
    } else {
      OtherLeft(s, t, buildOk, u);
    }
  }

  lemma BuilderLive(s: State, t: Tid, buildOk: bool)
    requires At(s, t).Build? || At(s, t).Install? || At(s, t).Lost?
    requires ThreadOk(s, At(s, t), t) && LiveAt(s)
    ensures LiveAt(Access(s, t, buildOk))
  {
    hide Stale, BelongsTo;
  }

  lemma TakerLive(s: State, t: Tid, buildOk: bool)
    requires At(s, t).Discard? || At(s, t).TakeRuntime? || At(s, t).SwapOut?
    requires ThreadOk(s, At(s, t), t) && LeftCurrent(s, At(s, t)) && LiveAt(s)
    ensures LiveAt(Access(s, t, buildOk))
  {
  }

  lemma OtherLive(s: State, t: Tid, buildOk: bool)
    requires var pc := At(s, t);
             || pc.Idle? || pc.LoadClosed? || pc.ReadPid? || pc.LoadCurrent? || pc.Recheck? || pc.Unpublish?
             || pc.StoreClosed?
    requires LiveAt(s)
    ensures LiveAt(Access(s, t, buildOk))
  {
    hide BelongsTo;
  }

  lemma AccessLive(s: State, t: Tid, buildOk: bool)
    requires Inv(s) && LiveOk(s)
    ensures LiveAt(Access(s, t, buildOk))
  {
    assert ThreadOk(s, At(s, t), t) && LeftCurrent(s, At(s, t)) && LiveAt(s);
    hide Inv, LiveOk, LiveAt, Access, LeftCurrent, ThreadOk;
    var pc := At(s, t);
    if pc.Build? || pc.Install? || pc.Lost? {
      BuilderLive(s, t, buildOk);
    } else if pc.Discard? || pc.TakeRuntime? || pc.SwapOut? {
      TakerLive(s, t, buildOk);
    } else {
      OtherLive(s, t, buildOk);
    }
  }

  lemma StepKeepsLive(s: State, e: Event)
    requires Inv(s) && LiveOk(s) && Enabled(s, e)
    ensures LiveOk(Apply(s, e))
  {
    if e.Advance? {
      var s' := Access(s, e.t, e.buildOk);
      AccessLive(s, e.t, e.buildOk);
      hide Access, LeftCurrent, Inv;
      forall u
        ensures LeftCurrent(s', At(s', u))
      {
        AccessLeft(s, e.t, e.buildOk, u);
      }
    } else {
      var s' := Apply(s, e);
      forall u
        ensures LeftCurrent(s', At(s', u))
      {
        assert LeftCurrent(s, At(s, u));
      }
    }
  }

  lemma {:induction false} RunKeepsLive(s: State, run: seq<Event>)
    requires Inv(s) && LiveOk(s)
    ensures Execute(s, run).Some? ==> LiveOk(Execute(s, run).value)
    decreases |run|
  {
    hide Inv, LiveOk, Enabled, Apply;
    if run != [] {
      var before := Execute(s, run[..|run| - 1]);
      RunKeepsInv(s, run[..|run| - 1]);
      RunKeepsLive(s, run[..|run| - 1]);
      if before.Some? && Enabled(before.value, run[|run| - 1]) {
        StepKeepsLive(before.value, run[|run| - 1]);
      }
    }
  }

  // ---------------------------------------------------------------- what whole runs promise

  predicate Quiet(s: State) {
    forall t | t in s.threads :: s.threads[t] == Idle
  }

  /** A runtime this process built, published or not. */
  predicate Ours(s: State, x: SlotId) {
    x < |s.slots| && s.slots[x].generation == s.generation
  }

  /**
   No runtime outlives shutdown. After any run in which shutdown has begun and no call is in
   flight, every runtime this process built was either published, taken out and shut down, once,
   or freed unpublished, which drops it; and `current` holds none of them.
   */
  lemma NoRuntimeOutlivesShutdown(pid: nat, run: seq<Event>)
    requires Execute(Init(pid), run).Some?
    ensures var s := Execute(Init(pid), run).value;
            s.closed && Quiet(s) ==>
              && (forall x: SlotId :: Ours(s, x) ==>
                    if s.slots[x].published then !s.slots[x].hasRuntime && s.slots[x].shutdowns == 1
                    else s.slots[x].freed)
              && (s.current.Some? ==> !Ours(s, s.current.value))
  {
    InitInv(pid);
    RunKeepsInv(Init(pid), run);
    RunKeepsHands(Init(pid), run);
    var s := Execute(Init(pid), run).value;
    if s.closed && Quiet(s) {
      forall x: SlotId | Ours(s, x)
        ensures if s.slots[x].published then !s.slots[x].hasRuntime && s.slots[x].shutdowns == 1
                else s.slots[x].freed
      {
        assert SlotOk(s, x) && InHand(s, x);
      }
    }
  }

  /** Every handle given out in one process before shutdown began is for the same slot. */
  lemma HandlesAgree(pid: nat, run: seq<Event>, r: Returned, q: Returned)
    requires Execute(Init(pid), run).Some?
    requires var s := Execute(Init(pid), run).value;
             Early(s, r, r.generation) && Early(s, q, r.generation)
    ensures r.slot == q.slot
  {
    InitInv(pid);
    RunKeepsInv(Init(pid), run);
  }

  /** No runtime is shut down twice, and only a slot that was never published is freed. */
  lemma ShutDownOnceFreedUnseen(pid: nat, run: seq<Event>, x: SlotId)
    requires Execute(Init(pid), run).Some? && x < |Execute(Init(pid), run).value.slots|
    ensures var s := Execute(Init(pid), run).value;
            && s.slots[x].shutdowns <= 1
            && (s.slots[x].freed ==> !s.slots[x].published && s.slots[x].shutdowns == 0)
            && (s.slots[x].freed ==> s.current != Some(x) && forall r: Returned :: r in s.returned ==> r.slot != x)
  {
    InitInv(pid);
    RunKeepsInv(Init(pid), run);
    assert SlotOk(Execute(Init(pid), run).value, x);
  }

  // ---------------------------------------------------------------- runtimes of other processes

  /** A fork whose child does not reuse the process id of the slot in `current`. */
  predicate FreshPid(s: State, e: Event) {
    e.Fork? ==> !BelongsTo(s, s.current, e.newPid)
  }

  predicate FreshRun(s: State, run: seq<Event>) {
    run == [] ||
    (FreshRun(s, run[..|run| - 1])
     && (Execute(s, run[..|run| - 1]).Some? ==> FreshPid(Execute(s, run[..|run| - 1]).value, run[|run| - 1])))
  }

  /** A pointer that passes for one of this process is one. */
  predicate NoImpostor(s: State, at: Option<SlotId>) {
    BelongsTo(s, at, s.pid) ==> s.slots[at.value].generation == s.generation
  }

  /** Handles and shutdowns only ever concern runtimes of the process they happen in. */
  ghost predicate Own(s: State) {
    && NoImpostor(s, s.current)
    && (forall t :: At(s, t).Lost? ==> NoImpostor(s, At(s, t).winner))
    && (forall t :: At(s, t).TakeRuntime? ==> NoImpostor(s, At(s, t).swapped))
    && (forall r: Returned :: r in s.returned ==> r.slot < |s.slots| && s.slots[r.slot].generation == r.generation)
    && (forall x :: 0 <= x < |s.slots| && s.slots[x].shutdownIn.Some? ==>
                      s.slots[x].shutdownIn == Some(s.slots[x].generation))
  }

  lemma OwnAfter(s: State, s': State, t: Tid)
    requires Inv(s) && Own(s) && s'.pid == s.pid && s'.generation == s.generation && |s.slots| <= |s'.slots|
    requires forall x :: 0 <= x < |s.slots| ==>
               s'.slots[x].pid == s.slots[x].pid && s'.slots[x].generation == s.slots[x].generation
    requires forall x :: 0 <= x < |s'.slots| && s'.slots[x].shutdownIn.Some? ==>
               s'.slots[x].shutdownIn == Some(s'.slots[x].generation)
    requires forall u :: u != t ==> At(s', u) == At(s, u)
    requires NoImpostor(s', s'.current)
    requires At(s', t).Lost? ==> NoImpostor(s', At(s', t).winner)
    requires At(s', t).TakeRuntime? ==> NoImpostor(s', At(s', t).swapped)
    requires forall r: Returned :: r in s'.returned ==>
               r in s.returned || (r.slot < |s'.slots| && s'.slots[r.slot].generation == r.generation)
    ensures Own(s')
  {
    forall u | u != t && (At(s', u).Lost? || At(s', u).TakeRuntime?)
      ensures At(s', u).Lost? ==> NoImpostor(s', At(s', u).winner)
      ensures At(s', u).TakeRuntime? ==> NoImpostor(s', At(s', u).swapped)
    {
      assert ThreadOk(s, At(s, u), u);
    }
  }

  lemma StepKeepsOwn(s: State, e: Event)
    requires Inv(s) && Own(s) && Enabled(s, e) && FreshPid(s, e)
    ensures Own(Apply(s, e))
  {
    match e
    case CallHandle(t) => OwnAfter(s, Apply(s, e), t);
    case CallShutdown(t) => OwnAfter(s, Apply(s, e), t);
    case Fork(t, newPid) =>
    case Advance(t, buildOk) => AccessKeepsOwn(s, t, buildOk);
  }

  lemma OwnFacts(s: State, t: Tid)
    requires Inv(s) && Own(s)
    ensures CurrentOk(s) && ThreadOk(s, At(s, t), t) && NoImpostor(s, s.current)
    ensures At(s, t).Lost? ==> NoImpostor(s, At(s, t).winner)
    ensures At(s, t).TakeRuntime? ==> NoImpostor(s, At(s, t).swapped)
    ensures forall x :: 0 <= x < |s.slots| && s.slots[x].shutdownIn.Some? ==>
              s.slots[x].shutdownIn == Some(s.slots[x].generation)
  {
  }

  lemma AccessKeepsOwn(s: State, t: Tid, buildOk: bool)
    requires Inv(s) && Own(s)
    ensures Own(Access(s, t, buildOk))
  {
    match At(s, t)
    case Idle =>
    case Discard(_) => TakeKeepsOwn(s, t, buildOk);
    case TakeRuntime(_) => TakeKeepsOwn(s, t, buildOk);
    case Lost(_, _, _) => LostKeepsOwn(s, t, buildOk);
    case Build(_, _) => BuildKeepsOwn(s, t, buildOk);
    case Install(_, _, _) => BuildKeepsOwn(s, t, buildOk);
    case SwapOut => SwapKeepsOwn(s, t, buildOk);
    case _ => MoveKeepsOwn(s, t, buildOk);
  }

  lemma TakeKeepsOwn(s: State, t: Tid, buildOk: bool)
    requires Inv(s) && Own(s) && (At(s, t).Discard? || At(s, t).TakeRuntime?)
    ensures Own(Access(s, t, buildOk))
  {
    OwnFacts(s, t);
    hide Inv, Own;
    OwnAfter(s, Access(s, t, buildOk), t);
  }

  lemma LostKeepsOwn(s: State, t: Tid, buildOk: bool)
    requires Inv(s) && Own(s) && At(s, t).Lost?
    ensures Own(Access(s, t, buildOk))
  {
    OwnFacts(s, t);
    hide Inv, Own;
    OwnAfter(s, Access(s, t, buildOk), t);
  }

  lemma BuildKeepsOwn(s: State, t: Tid, buildOk: bool)
    requires Inv(s) && Own(s) && (At(s, t).Build? || At(s, t).Install?)
    ensures Own(Access(s, t, buildOk))
  {
    OwnFacts(s, t);
    hide Inv, Own;
    OwnAfter(s, Access(s, t, buildOk), t);
  }

  lemma SwapKeepsOwn(s: State, t: Tid, buildOk: bool)
    requires Inv(s) && Own(s) && At(s, t).SwapOut?
    ensures Own(Access(s, t, buildOk))
  {
    OwnFacts(s, t);
    hide Inv, Own;
    OwnAfter(s, Access(s, t, buildOk), t);
  }

  lemma MoveKeepsOwn(s: State, t: Tid, buildOk: bool)
    requires Inv(s) && Own(s) && At(s, t) != Idle
    requires var pc := At(s, t);
             pc.LoadClosed? || pc.ReadPid? || pc.LoadCurrent? || pc.Recheck? || pc.Unpublish? || pc.StoreClosed?
    ensures Own(Access(s, t, buildOk))
  {
    OwnFacts(s, t);
    hide Inv, Own;
    OwnAfter(s, Access(s, t, buildOk), t);
  }

  lemma {:induction false} RunKeepsOwn(s: State, run: seq<Event>)
    requires Inv(s) && Own(s) && FreshRun(s, run)
    ensures Execute(s, run).Some? ==> Own(Execute(s, run).value)
    decreases |run|
  {
    hide Inv, Own, Enabled, Apply, FreshPid;
    if run != [] {
      var before := Execute(s, run[..|run| - 1]);
      RunKeepsInv(s, run[..|run| - 1]);
      RunKeepsOwn(s, run[..|run| - 1]);
      if before.Some? && Enabled(before.value, run[|run| - 1]) {
        StepKeepsOwn(before.value, run[|run| - 1]);
      }
    }
  }

  /**
   If no child reuses the process id of the slot it inherits in `current`, then a runtime
   built before a fork is never given out and never shut down behind it.
   */
  lemma InheritedRuntimesStayUntouched(pid: nat, run: seq<Event>)
    requires Execute(Init(pid), run).Some? && FreshRun(Init(pid), run)
    ensures var s := Execute(Init(pid), run).value;
            && (forall r: Returned :: r in s.returned ==>
                  r.slot < |s.slots| && s.slots[r.slot].generation == r.generation)
            && (forall x :: 0 <= x < |s.slots| && s.slots[x].shutdownIn.Some? ==>
                  s.slots[x].shutdownIn == Some(s.slots[x].generation))
  {
    InitInv(pid);
    RunKeepsOwn(Init(pid), run);
  }

  /** A child's first call of `handle`, up to the access that decides it. */
  function FirstHandle(s: State, t: Tid, newPid: nat): State {
    var entered := Apply(Apply(s, Fork(t, newPid)), CallHandle(t));
    Access(Access(Access(entered, t, true), t, true), t, true)
  }

  /**
   The condition is exact: a child gives out the runtime it inherited in `current`, whose
   threads do not exist in it, if and only if its process id is the one in that slot.
   */
  lemma CorpseIffPidReused(s: State, t: Tid, newPid: nat, x: SlotId)
    requires Inv(s) && Enabled(s, Fork(t, newPid)) && !s.closed && s.current == Some(x)
    ensures var child := FirstHandle(s, t, newPid);
            && (Returned(child.generation, x, false, t) in child.returned <==> !FreshPid(s, Fork(t, newPid)))
            && s.slots[x].generation < child.generation
  {
    assert SlotOk(s, x);
    var forked := Apply(s, Fork(t, newPid));
    var entered := Apply(forked, CallHandle(t));
    assert At(entered, t) == LoadClosed;
    var one := Access(entered, t, true);
    assert At(one, t) == ReadPid;
    var two := Access(one, t, true);
    assert At(two, t) == LoadCurrent(newPid);
    assert two.returned == s.returned;
    assert Returned(s.generation + 1, x, false, t) !in s.returned;
  }

  /** A child's first call of `shutdown`, through all its accesses. */
  function FirstShutdown(s: State, t: Tid, newPid: nat): State {
    var entered := Apply(Apply(s, Fork(t, newPid)), CallShutdown(t));
    Access(Access(Access(entered, t, true), t, true), t, true)
  }

  /**
   The same condition for shutdown, whether or not it had begun before the fork: a child takes
   the inherited runtime out, to wait for threads that do not exist in it, if and only if its
   process id is the one in that slot.
   */
  lemma CorpseShutDownIffPidReused(s: State, t: Tid, newPid: nat, x: SlotId)
    requires Inv(s) && Enabled(s, Fork(t, newPid)) && s.current == Some(x)
    requires x < |s.slots| && s.slots[x].hasRuntime
    ensures var child := FirstShutdown(s, t, newPid);
            && |child.slots| == |s.slots|
            && (child.slots[x].shutdownIn == Some(child.generation) <==> !FreshPid(s, Fork(t, newPid)))
            && s.slots[x].generation < child.generation
  {
    assert SlotOk(s, x);
    var forked := Apply(s, Fork(t, newPid));
    var entered := Apply(forked, CallShutdown(t));
    assert At(entered, t) == StoreClosed;
    var one := Access(entered, t, true);
    assert At(one, t) == SwapOut;
    var two := Access(one, t, true);
    assert At(two, t) == TakeRuntime(Some(x));
    assert two.slots[x].pid == s.slots[x].pid && two.slots[x].shutdownIn == None;
  }

  /**
   Both together, in every state a run can reach: a child that is forked there touches the
   runtime it inherits in `current` if and only if it is given the process id of that slot.  Its
   first `shutdown` then takes it out, and its first `handle`, unless shutdown had begun, gives it
   out; otherwise neither does.
   */
  lemma TouchedIffPidReused(pid: nat, run: seq<Event>, t: Tid, newPid: nat, x: SlotId)
    requires Execute(Init(pid), run).Some?
    requires var s := Execute(Init(pid), run).value; Enabled(s, Fork(t, newPid)) && s.current == Some(x)
    ensures var s := Execute(Init(pid), run).value;
            var reused := !FreshPid(s, Fork(t, newPid));
            var down := FirstShutdown(s, t, newPid);
            && x < |s.slots| == |down.slots|
            && (down.slots[x].shutdownIn == Some(down.generation) <==> reused)
            && (!s.closed ==>
                  var child := FirstHandle(s, t, newPid);
                  Returned(child.generation, x, false, t) in child.returned <==> reused)
  {
    InitInv(pid);
    RunKeepsInv(Init(pid), run);
    RunKeepsLive(Init(pid), run);
    var s := Execute(Init(pid), run).value;
    assert s.slots[x].hasRuntime;
    hide Inv, LiveOk, Execute, FirstHandle, FirstShutdown, FreshPid;
    CorpseShutDownIffPidReused(s, t, newPid, x);
    if !s.closed {
      CorpseIffPidReused(s, t, newPid, x);
    }
  }

  lemma ExecuteSnoc(s: State, run: seq<Event>, e: Event)
    requires Execute(s, run).Some? && Enabled(Execute(s, run).value, e)
    ensures Execute(s, run + [e]) == Some(Apply(Execute(s, run).value, e))
  {
    assert (run + [e])[..|run|] == run;
  }

  /** Process 1 finds no runtime. */
  lemma FindsNone() returns (run: seq<Event>, s: State)
    ensures Execute(Init(1), run) == Some(s) && At(s, 0) == Build(None, 1)
    ensures s == Init(1).(threads := s.threads)
  {
    assert Execute(Init(1), []) == Some(Init(1));
    hide Execute;
    run, s := Continue([], Init(1), CallHandle(0));
    assert At(s, 0) == LoadClosed;
    run, s := Continue(run, s, Advance(0, true));
    assert At(s, 0) == ReadPid;
    run, s := Continue(run, s, Advance(0, true));
    assert At(s, 0) == LoadCurrent(1);
    run, s := Continue(run, s, Advance(0, true));
  }

  /** Process 1 builds its runtime and gives it out. */
  lemma BuildsOnce() returns (run: seq<Event>, s: State)
    ensures Execute(Init(1), run) == Some(s) && At(s, 0) == Idle
    ensures s.current == Some(0) && !s.closed && s.pid == 1 && s.generation == 0
    ensures |s.slots| == 1 && s.slots[0].pid == 1 && s.slots[0].generation == 0 && s.slots[0].hasRuntime
  {
    hide Execute;
    run, s := FindsNone();
    run, s := Continue(run, s, Advance(0, true));
    assert At(s, 0) == Install(None, 1, 0);
    run, s := Continue(run, s, Advance(0, true));
    assert At(s, 0) == Recheck(0);
    run, s := Continue(run, s, Advance(0, true));
  }

  /** Process 1 builds and forks 2. */
  lemma BuildsThenForks() returns (run: seq<Event>, s: State)
    ensures Execute(Init(1), run) == Some(s) && Inv(s) && At(s, 0) == Idle
    ensures s.current == Some(0) && !s.closed && s.pid == 2 && s.generation == 1
    ensures |s.slots| == 1 && s.slots[0].pid == 1 && s.slots[0].generation == 0 && s.slots[0].hasRuntime
  {
    hide Execute;
    run, s := BuildsOnce();
    run, s := Continue(run, s, Fork(0, 2));
    InitInv(1);
    RunKeepsInv(Init(1), run);
  }

  /** Process 1 builds, forks 2 and ends; 2 forks a child that is given the id 1 again. */
  lemma GrandchildGetsCorpse() returns (run: seq<Event>, s: State)
    ensures Execute(Init(1), run) == Some(s)
    ensures Returned(2, 0, false, 0) in s.returned && s.generation == 2
    ensures |s.slots| > 0 && s.slots[0].generation == 0
  {
    hide Execute;
    run, s := BuildsThenForks();
    CorpseIffPidReused(s, 0, 1, 0);
    hide Inv;
    run, s := Continue(run, s, Fork(0, 1));
    run, s := Continue(run, s, CallHandle(0));
    assert At(s, 0) == LoadClosed;
    run, s := Continue(run, s, Advance(0, true));
    assert At(s, 0) == ReadPid;
    run, s := Continue(run, s, Advance(0, true));
    assert At(s, 0) == LoadCurrent(1);
    run, s := Continue(run, s, Advance(0, true));
  }

  /** The same descendant, calling `shutdown` instead. */
  lemma GrandchildShutsCorpseDown() returns (run: seq<Event>, s: State)
    ensures Execute(Init(1), run) == Some(s)
    ensures |s.slots| > 0 && s.slots[0].generation == 0 && s.slots[0].shutdownIn == Some(2)
  {
    hide Execute;
    run, s := BuildsThenForks();
    hide Inv, FirstHandle;
    run, s := Continue(run, s, Fork(0, 1));
    assert s.pid == 1 && s.generation == 2 && At(s, 0) == Idle && s.current == Some(0);
    run, s := Continue(run, s, CallShutdown(0));
    assert At(s, 0) == StoreClosed;
    run, s := Continue(run, s, Advance(0, true));
    assert At(s, 0) == SwapOut;
    run, s := Continue(run, s, Advance(0, true));
    assert At(s, 0) == TakeRuntime(Some(0)) && BelongsTo(s, Some(0), s.pid) && s.slots[0].hasRuntime;
    hide BelongsTo;
    run, s := Continue(run, s, Advance(0, true));
  }

  lemma Continue(run: seq<Event>, s: State, e: Event) returns (longer: seq<Event>, after: State)
    requires Execute(Init(1), run) == Some(s) && Enabled(s, e)
    ensures longer == run + [e] && after == Apply(s, e) && Execute(Init(1), longer) == Some(after)
  {
    longer, after := run + [e], Apply(s, e);
    ExecuteSnoc(Init(1), run, e);
  }
}
