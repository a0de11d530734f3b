/**
 What a call of `handle` comes back with: a handle for a published runtime of its own process, or
 an error that has its reason.  While nothing is closed, no call left alone fails to get a handle;
 once shutdown has begun, no call that begins later gets one.
 */
module RuntimeHandles {
  import opened Prelude
  import opened RuntimeSlot

  /** Inside `handle`, with `build` and `retract`. */
  predicate InHandle(pc: Pc) {
    || pc.LoadClosed? || pc.ReadPid? || pc.LoadCurrent? || pc.Build? || pc.Install? || pc.Recheck?
    || pc.Unpublish? || pc.Discard? || pc.Lost?
  }

  /** The step by which a call of `handle` returns. */
  predicate Ends(s: State, e: Event) {
    e.Advance? && InHandle(At(s, e.t)) && At(Apply(s, e), e.t) == Idle
  }

  /** One handle more, of a published slot of this process. */
  predicate GivesOut(s: State, s': State, t: Tid, x: SlotId) {
    && s'.returned == s.returned + [Returned(s.generation, x, s.closed, t)]
    && Published(s', x) && !s'.slots[x].freed && s'.slots[x].pid == s.pid
  }

  /** Why a call may return without a handle: one of its looks found `closed` set, or its build failed. */
  predicate Excused(s: State, e: Event) {
    e.Advance? && match At(s, e.t)
                  case LoadClosed => s.closed
                  case Discard(_) => s.closed
                  case Build(_, _) => !e.buildOk
                  case _ => false
  }

  /** What a step does to the handles given out. */
  predicate Settles(s: State, e: Event, s': State) {
    && (!Ends(s, e) ==> s'.returned == s.returned)
    && (Ends(s, e) && Excused(s, e) ==> s'.returned == s.returned)
    && (Ends(s, e) && !Excused(s, e) ==>
          s'.returned != [] && GivesOut(s, s', e.t, s'.returned[|s'.returned| - 1].slot))
    && (Ends(s, e) && !Excused(s, e) && !s.closed ==>
          s'.current == Some(s'.returned[|s'.returned| - 1].slot))
  }

  lemma LookSettles(s: State, t: Tid, buildOk: bool)
    requires Inv(s) && At(s, t).LoadCurrent?
    ensures Settles(s, Advance(t, buildOk), Access(s, t, buildOk))
  {
    assert ThreadOk(s, At(s, t), t) && CurrentOk(s);
    if s.current.Some? {
      assert SlotOk(s, s.current.value);
    }
    hide Inv;
  }

  lemma RecheckSettles(s: State, t: Tid, buildOk: bool)
    requires Inv(s) && At(s, t).Recheck?
    ensures Settles(s, Advance(t, buildOk), Access(s, t, buildOk))
  {
    assert ThreadOk(s, At(s, t), t) && SlotOk(s, At(s, t).slot);
    hide Inv;
  }

  lemma LostSettles(s: State, t: Tid, buildOk: bool)
    requires Inv(s) && At(s, t).Lost?
    ensures Settles(s, Advance(t, buildOk), Access(s, t, buildOk))
  {
    assert ThreadOk(s, At(s, t), t);
    if At(s, t).winner.Some? {
      assert SlotOk(s, At(s, t).winner.value);
    }
    hide Inv;
  }

  lemma OtherSettles(s: State, t: Tid, buildOk: bool)
    requires Inv(s) && Enabled(s, Advance(t, buildOk))
    requires var pc := At(s, t); !pc.LoadCurrent? && !pc.Recheck? && !pc.Lost?
    ensures Settles(s, Advance(t, buildOk), Access(s, t, buildOk))
  {
    assert ThreadOk(s, At(s, t), t);
    hide Inv;
  }

  /**
   Every call of `handle` that returns gives out one handle, for a published runtime of its process
   and while nothing is closed for the one in `current`, unless a look of its own found `closed` set
   or its build failed; and no other step gives out any.
   */
  lemma StepSettles(s: State, e: Event)
    requires Inv(s) && Enabled(s, e)
    ensures Settles(s, e, Apply(s, e))
  {
    hide Inv, Settles, Access;
    match e {
      case Advance(t, buildOk) =>
        match At(s, t) {
          case LoadCurrent(_) => LookSettles(s, t, buildOk);
          case Recheck(_) => RecheckSettles(s, t, buildOk);
          case Lost(_, _, _) => LostSettles(s, t, buildOk);
          case _ => OtherSettles(s, t, buildOk);
        }
      case _ => CallSettles(s, e);
    }
  }

  lemma CallSettles(s: State, e: Event)
    requires !e.Advance?
    ensures Settles(s, e, Apply(s, e))
  {
  }

  // ---------------------------------------------------------------- left alone, a call gets its handle

  /** The accesses a builder has left from before its build, with nobody else at work. */
  function BuildLeft(s: State, seen: Option<SlotId>, pid: nat): nat {
    1 + InstallLeft(s, seen, pid)
  }

  function InstallLeft(s: State, seen: Option<SlotId>, pid: nat): nat {
    if s.current == seen || BelongsTo(s, s.current, pid) then 2 else 5
  }

  function LookLeft(s: State, pid: nat): nat {
    if BelongsTo(s, s.current, pid) then 1 else 4
  }

  /** The accesses a call of `handle` has left, with nobody else at work. */
  function AccessesLeft(s: State, pc: Pc): nat {
    match pc
    case LoadClosed => 2 + LookLeft(s, s.pid)
    case ReadPid => 1 + LookLeft(s, s.pid)
    case LoadCurrent(pid) => LookLeft(s, pid)
    case Build(seen, pid) => BuildLeft(s, seen, pid)
    case Install(seen, pid, _) => InstallLeft(s, seen, pid)
    case Recheck(_) => 1
    case Lost(winner, pid, _) => if BelongsTo(s, winner, pid) then 1 else 1 + BuildLeft(s, winner, pid)
    case _ => 0
  }

  /** Still on its way, and nearer. */
  predicate Nearer(s: State, s': State, t: Tid) {
    && InHandle(At(s', t)) && !s'.closed && s'.returned == s.returned
    && s'.generation == s.generation && s'.pid == s.pid
    && AccessesLeft(s', At(s', t)) < AccessesLeft(s, At(s, t))
  }

  /** Back with a handle for what is in `current`. */
  predicate Handed(s: State, s': State, t: Tid) {
    && At(s', t) == Idle && s'.current.Some? && GivesOut(s, s', t, s'.current.value)
  }

  lemma LooksAlone(s: State, t: Tid)
    requires Inv(s) && !s.closed && (At(s, t).LoadClosed? || At(s, t).ReadPid? || At(s, t).LoadCurrent?)
    ensures var s' := Access(s, t, true); Nearer(s, s', t) || Handed(s, s', t)
  {
    StepSettles(s, Advance(t, true));
    assert ThreadOk(s, At(s, t), t);
    hide Inv;
  }

  lemma BuildsAlone(s: State, t: Tid)
    requires Inv(s) && !s.closed && At(s, t).Build?
    ensures Nearer(s, Access(s, t, true), t)
  {
    assert ThreadOk(s, At(s, t), t) && CurrentOk(s);
    hide Inv;
  }

  lemma InstallsAlone(s: State, t: Tid)
    requires Inv(s) && !s.closed && At(s, t).Install?
    ensures Nearer(s, Access(s, t, true), t)
  {
    assert ThreadOk(s, At(s, t), t) && CurrentOk(s);
    hide Inv;
  }

  lemma RechecksAlone(s: State, t: Tid)
    requires Inv(s) && !s.closed && At(s, t).Recheck?
    ensures Handed(s, Access(s, t, true), t)
  {
    StepSettles(s, Advance(t, true));
    assert ThreadOk(s, At(s, t), t);
    hide Inv;
  }

  lemma LosesAlone(s: State, t: Tid)
    requires Inv(s) && !s.closed && At(s, t).Lost?
    ensures var s' := Access(s, t, true); Nearer(s, s', t) || Handed(s, s', t)
  {
    StepSettles(s, Advance(t, true));
    assert ThreadOk(s, At(s, t), t) && CurrentOk(s);
    hide Inv;
  }

  lemma GoesOnAlone(s: State, t: Tid)
    requires Inv(s) && !s.closed && InHandle(At(s, t))
    ensures Enabled(s, Advance(t, true)) && Inv(Access(s, t, true)) && AccessesLeft(s, At(s, t)) >= 1
    ensures var s' := Access(s, t, true); Nearer(s, s', t) || Handed(s, s', t)
  {
    StepKeepsInv(s, Advance(t, true));
    assert ThreadOk(s, At(s, t), t);
    hide Inv, Nearer, Handed, Access;
    match At(s, t) {
      case Build(_, _) => BuildsAlone(s, t);
      case Install(_, _, _) => InstallsAlone(s, t);
      case Recheck(_) => RechecksAlone(s, t);
      case Lost(_, _, _) => LosesAlone(s, t);
      case LoadClosed => LooksAlone(s, t);
      case ReadPid => LooksAlone(s, t);
      case LoadCurrent(_) => LooksAlone(s, t);
      case _ =>
    }
  }

  /** `n` accesses of one thread, its builds succeeding. */
  function Alone(t: Tid, n: nat): seq<Event> {
    if n == 0 then [] else [Advance(t, true)] + Alone(t, n - 1)
  }

  lemma {:induction false} ExecuteFirst(s: State, e: Event, rest: seq<Event>)
    requires Enabled(s, e)
    ensures Execute(s, [e] + rest) == Execute(Apply(s, e), rest)
    decreases |rest|
  {
    hide Enabled, Apply;
    var run := [e] + rest;
    if rest == [] {
      assert run[..0] == [] && Execute(s, []) == Some(s);
    } else {
      assert run[..|run| - 1] == [e] + rest[..|rest| - 1];
      ExecuteFirst(s, e, rest[..|rest| - 1]);
    }
  }

  lemma {:induction false} HandedAlone(s: State, t: Tid) returns (n: nat, after: State)
    requires Inv(s) && !s.closed && InHandle(At(s, t))
    ensures n <= AccessesLeft(s, At(s, t)) && Execute(s, Alone(t, n)) == Some(after)
    ensures Handed(s, after, t)
    decreases AccessesLeft(s, At(s, t))
  {
    hide Inv, Execute, Enabled, InHandle, AccessesLeft, Access;
    GoesOnAlone(s, t);
    var next := Access(s, t, true);
    if Nearer(s, next, t) {
      NearerMeans(s, next, t);
      n, after := HandedAlone(next, t);
      ExecuteFirst(s, Advance(t, true), Alone(t, n));
      n := n + 1;
      HandedLater(s, next, after, t);
    } else {
      n, after := 1, next;
      ExecuteFirst(s, Advance(t, true), []);
      ExecuteNothing(next);
    }
  }

  lemma NearerMeans(s: State, next: State, t: Tid)
    requires Nearer(s, next, t)
    ensures InHandle(At(next, t)) && !next.closed && AccessesLeft(next, At(next, t)) < AccessesLeft(s, At(s, t))
  {
  }

  lemma HandedLater(s: State, next: State, after: State, t: Tid)
    requires Nearer(s, next, t) && Handed(next, after, t) && !s.closed
    ensures Handed(s, after, t)
  {
  }

  lemma ExecuteNothing(s: State)
    ensures Execute(s, []) == Some(s)
  {
  }

  lemma ReachableInv(pid: nat, run: seq<Event>)
    requires Execute(Init(pid), run).Some?
    ensures Inv(Execute(Init(pid), run).value)
  {
    InitInv(pid);
    RunKeepsInv(Init(pid), run);
  }

  lemma AtMostSeven(s: State, pc: Pc)
    ensures AccessesLeft(s, pc) <= 7 && (pc == LoadClosed ==> AccessesLeft(s, pc) <= 6)
  {
  }

  /**
   From every reachable state in which nothing is closed, a thread that calls `handle` and is left
   alone, its build succeeding, has after at most six accesses a handle for what is in `current`, a
   published slot of its process.
   */
  lemma CallGetsHandle(pid: nat, run: seq<Event>, t: Tid) returns (n: nat, after: State)
    requires Execute(Init(pid), run).Some?
    requires var s := Execute(Init(pid), run).value; !s.closed && At(s, t) == Idle
    ensures var s := Execute(Init(pid), run).value;
            && n <= 6 && Execute(s, [CallHandle(t)] + Alone(t, n)) == Some(after)
            && At(after, t) == Idle && after.current.Some? && GivesOut(s, after, t, after.current.value)
  {
    ReachableInv(pid, run);
    var s := Execute(Init(pid), run).value;
    StepKeepsInv(s, CallHandle(t));
    var entered := Apply(s, CallHandle(t));
    assert At(entered, t) == LoadClosed;
    AtMostSeven(entered, LoadClosed);
    hide Inv, Execute, AccessesLeft;
    n, after := HandedAlone(entered, t);
    ExecuteFirst(s, CallHandle(t), Alone(t, n));
  }

  /** The same for a call already on its way, whatever others did to it so far. */
  lemma CallUnderWayGetsHandle(pid: nat, run: seq<Event>, t: Tid) returns (n: nat, after: State)
    requires Execute(Init(pid), run).Some?
    requires var s := Execute(Init(pid), run).value; !s.closed && InHandle(At(s, t))
    ensures var s := Execute(Init(pid), run).value;
            && n <= 7 && Execute(s, Alone(t, n)) == Some(after)
            && At(after, t) == Idle && after.current.Some? && GivesOut(s, after, t, after.current.value)
  {
    ReachableInv(pid, run);
    var s := Execute(Init(pid), run).value;
    AtMostSeven(s, At(s, t));
    hide Inv, Execute, AccessesLeft, InHandle;
    n, after := HandedAlone(s, t);
  }

  /**
   The loser of the race to install: when another thread of this process has published first, the
   two accesses that follow free the loser's own slot and hand out the winner's.
   */
  lemma LoserGetsWinners(s: State, t: Tid)
    requires Inv(s) && At(s, t).Install? && s.current != At(s, t).seen
    requires s.current.Some? && s.current.value < |s.slots| && s.slots[s.current.value].pid == s.pid
    ensures var lost := Access(s, t, true);
            var after := Access(lost, t, true);
            && At(after, t) == Idle && after.current == s.current && GivesOut(s, after, t, s.current.value)
            && At(s, t).slot < |after.slots| && after.slots[At(s, t).slot].freed
  {
    assert ThreadOk(s, At(s, t), t) && CurrentOk(s) && SlotOk(s, s.current.value);
    hide Inv;
  }

  // ---------------------------------------------------------------- once shutdown has begun

  /** Not past the first look of `handle`. */
  predicate Outside(pc: Pc) {
    pc.Idle? || pc.LoadClosed? || pc.StoreClosed? || pc.SwapOut? || pc.TakeRuntime?
  }

  /** `s'` follows `s` without a handle for `t`. */
  predicate NoneFor(s: State, t: Tid, s': State) {
    && s'.closed && Outside(At(s', t)) && s.returned <= s'.returned
    && forall i | |s.returned| <= i < |s'.returned| :: s'.returned[i].caller != t
  }

  lemma AccessGivesNone(s: State, t: Tid, now: State, u: Tid, buildOk: bool)
    requires NoneFor(s, t, now)
    ensures NoneFor(s, t, Access(now, u, buildOk))
  {
    if u == t {
      StaysOutside(now, t, buildOk);
    } else {
      OthersGet(now, u, buildOk);
      OthersStay(now, u, buildOk, t);
    }
    hide Access, Outside, At;
  }

  lemma OthersStay(now: State, u: Tid, buildOk: bool, t: Tid)
    requires u != t
    ensures At(Access(now, u, buildOk), t) == At(now, t)
  {
    hide BelongsTo;
  }

  lemma StaysOutside(now: State, t: Tid, buildOk: bool)
    requires now.closed && Outside(At(now, t))
    ensures var s' := Access(now, t, buildOk);
            s'.closed && Outside(At(s', t)) && s'.returned == now.returned
  {
    hide BelongsTo;
  }

  lemma OthersGet(now: State, u: Tid, buildOk: bool)
    requires now.closed
    ensures var s' := Access(now, u, buildOk);
            && s'.closed && now.returned <= s'.returned
            && forall i | |now.returned| <= i < |s'.returned| :: s'.returned[i].caller == u
  {
    hide BelongsTo;
  }

  lemma StepGivesNone(s: State, t: Tid, now: State, e: Event)
    requires NoneFor(s, t, now) && Enabled(now, e)
    ensures NoneFor(s, t, Apply(now, e))
  {
    hide Access;
    if e.Advance? {
      AccessGivesNone(s, t, now, e.t, e.buildOk);
    }
  }

  /**
   Shutdown is final: once `closed` is set, no call of `handle` that begins then is ever given a
   handle, in this process or in one forked from it.
   */
  lemma {:induction false} NoHandleAfterClose(s: State, more: seq<Event>, t: Tid)
    requires s.closed && Outside(At(s, t)) && Execute(s, more).Some?
    ensures var after := Execute(s, more).value;
            && after.closed && s.returned <= after.returned
            && forall i | |s.returned| <= i < |after.returned| :: after.returned[i].caller != t
    ensures NoneFor(s, t, Execute(s, more).value)
    decreases |more|
  {
    hide Enabled, Apply;
    if more != [] {
      NoHandleAfterClose(s, more[..|more| - 1], t);
      StepGivesNone(s, t, Execute(s, more[..|more| - 1]).value, more[|more| - 1]);
    }
  }
}
