/**
 The body slot of a stream response: handed to one iterator, read into memory, or
 closed. The sync response does each in one go; the async one empties the slot while
 `aread` waits for the network and stores the bytes afterwards.
 */
module StreamBody {
  import opened Prelude
  import opened NetworkSource

  /** `S` is the handle a response keeps on a stream it has handed out. */
  datatype Body<+S> = Live | Streaming(stream: S) | Buffered(bytes: Bytes)

  datatype BodyError = StreamConsumed | ResponseClosed | ReadFailed | BadChunkSize

  method CheckedChunkSize(size: Option<nat>) returns (r: Result<Option<nat>, BodyError>)
    ensures r.Ok? <==> size != Some(0)
    ensures r == if r.Ok? then Ok(size) else Err(BadChunkSize)
  {
    if size == Some(0) {
      return Err(BadChunkSize);
    }
    r := Ok(size);
  }

  /** `network`: what the network will do for the live body. */
  class SyncResponse {
    const network: seq<Event<Bytes>>
    var body: Option<Body<Source<Bytes>>>

    constructor (network: seq<Event<Bytes>>)
      ensures this.network == network && body == Some(Live)
    {
      this.network, body := network, Some(Live);
    }

    /** Succeeds once: the slot never becomes `Live` again. The response keeps a handle on the stream. */
    method StartStream() returns (r: Result<Source<Bytes>, BodyError>)
      modifies this
      ensures r.Ok? <==> old(body) == Some(Live)
      ensures r.Ok? ==> fresh(r.value) && r.value.live && !r.value.closed && r.value.events == network
      ensures body == if r.Ok? then Some(Streaming(r.value)) else old(body)
      ensures r.Err? ==> r.error == if old(body) == None then ResponseClosed else StreamConsumed
    {
      var taken := body;
      body := None;
      match taken
      case Some(Live) =>
        var stream := new Source<Bytes>(network);
        body := Some(Streaming(stream));
        r := Ok(stream);
      case Some(Streaming(stream)) =>
        body := Some(Streaming(stream));
        r := Err(StreamConsumed);
      case Some(Buffered(bytes)) =>
        body := Some(Buffered(bytes));
        r := Err(StreamConsumed);
      case None =>
        r := Err(ResponseClosed);
    }

    /** A failed read leaves the response closed. */
    method Read() returns (r: Result<Bytes, BodyError>)
      modifies this
      ensures old(body) == Some(Live) ==>
                if Breaks(network) then r == Err(ReadFailed) && body == None
                else r == Ok(Concat(Arriving(network))) && body == Some(Buffered(Concat(Arriving(network))))
      ensures old(body) != Some(Live) ==> body == old(body)
      ensures old(body) == None ==> r == Err(ResponseClosed)
      ensures old(body).Some? && old(body).value.Streaming? ==> r == Err(StreamConsumed)
      ensures old(body).Some? && old(body).value.Buffered? ==> r == Ok(old(body).value.bytes)
    {
      var taken := body;
      body := None;
      match taken
      case Some(Live) =>
        if Breaks(network) {
          return Err(ReadFailed);
        }
        var bytes := Concat(Arriving(network));
        body := Some(Buffered(bytes));
        r := Ok(bytes);
      case Some(Streaming(stream)) =>
        body := Some(Streaming(stream));
        r := Err(StreamConsumed);
      case Some(Buffered(bytes)) =>
        body := Some(Buffered(bytes));
        r := Ok(bytes);
      case None =>
        r := Err(ResponseClosed);
    }

    ghost function Streams(): set<Source<Bytes>>
      reads this
    {
      if body.Some? && body.value.Streaming? then {body.value.stream} else {}
    }

    /** Leaves the slot empty, and closes a stream that was handed out, so that its iterator raises. */
    method Close()
      modifies this`body, Streams()`closed
      ensures body == None
      ensures forall stream <- old(Streams()) :: stream.closed
    {
      var taken := body;
      body := None;
      if taken.Some? && taken.value.Streaming? {
        taken.value.stream.Close();
      }
    }
  }

  // ---------------------------------------------------------------- the async response

  /**
   `waiting`: an `aread` has taken the live body and awaits the network. `handedOut` counts
   live bodies given away. `streamClosed`: the stream handed out was closed.
   */
  datatype State = State(body: Option<Body<()>>, waiting: bool, handedOut: nat, streamClosed: bool)

  datatype Action = StartStream | ARead | AReadDone(network: Option<Bytes>) | AClose

  const INIT := State(Some(Live), false, 0, false)

  predicate Enabled(s: State, e: Action) {
    e.AReadDone? ==> s.waiting
  }

  function Apply(s: State, e: Action): State {
    match e
    case StartStream =>
      if s.body == Some(Live) then s.(body := Some(Streaming(())), handedOut := s.handedOut + 1) else s
    case ARead =>
      if s.body == Some(Live) then s.(body := None, waiting := true, handedOut := s.handedOut + 1) else s
    case AReadDone(network) =>
      if network.Some? then s.(body := Some(Buffered(network.value)), waiting := false) else s.(waiting := false)
    case AClose => s.(body := None, streamClosed := s.streamClosed || s.body == Some(Streaming(())))
  }

  function Execute(s: State, run: seq<Action>): Option<State>
    decreases |run|
  {
    if run == [] then Some(s)
    else if Enabled(s, run[0]) then Execute(Apply(s, run[0]), run[1..])
    else None
  }

  /** The live body is given away at most once, and only while it is in the slot. */
  lemma {:induction false} HandedOutOnce(s: State, run: seq<Action>)
    requires s.handedOut <= if s.body == Some(Live) then 0 else 1
    requires s.waiting ==> s.body != Some(Live)
    ensures Execute(s, run).Some? ==> Execute(s, run).value.handedOut <= 1
    decreases |run|
  {
    if run != [] && Enabled(s, run[0]) {
      HandedOutOnce(Apply(s, run[0]), run[1..]);
    }
  }

  /** With no `aread` in flight, closed stays closed. */
  lemma {:induction false} ClosedStays(s: State, run: seq<Action>)
    requires s.body == None && !s.waiting
    ensures Execute(s, run).Some? ==> Execute(s, run).value == s
    decreases |run|
  {
    if run != [] && Enabled(s, run[0]) {
      ClosedStays(Apply(s, run[0]), run[1..]);
    }
  }

  /** Once a stream was handed out, closing the response closes it, and nothing opens it again. */
  lemma {:induction false} HandedOutStreamCloses(s: State, run: seq<Action>)
    requires s.body == Some(Streaming(())) && !s.waiting && Execute(s, run).Some?
    ensures Execute(s, run).value == if AClose in run then s.(body := None, streamClosed := true) else s
    decreases |run|
  {
    if run != [] {
      var next := Apply(s, run[0]);
      assert run == [run[0]] + run[1..];
      if run[0] == AClose {
        ClosedStays(next, run[1..]);
      } else {
        HandedOutStreamCloses(next, run[1..]);
      }
    }
  }

  /** Bytes in memory stay there until the response is closed. */
  lemma {:induction false} BufferedStays(s: State, run: seq<Action>)
    requires s.body.Some? && s.body.value.Buffered? && !s.waiting && Execute(s, run).Some?
    ensures Execute(s, run).value == if AClose in run then s.(body := None) else s
    decreases |run|
  {
    if run != [] {
      assert run == [run[0]] + run[1..];
      if run[0] == AClose {
        ClosedStays(Apply(s, AClose), run[1..]);
      } else {
        BufferedStays(s, run[1..]);
      }
    }
  }

  /** While `aread` waits only the network moves the slot, and the bytes then stay until a later close. */
  lemma {:induction false} ReadInFlight(s: State, run: seq<Action>, d: nat)
    requires s.body == None && s.waiting && Execute(s, run).Some?
    requires d <= |run| && (forall e <- run[..d] :: !e.AReadDone?) && (d < |run| ==> run[d].AReadDone?)
    ensures Execute(s, run).value
         == if d == |run| then s
            else if run[d].network == None || AClose in run[d + 1..] then s.(waiting := false)
            else s.(waiting := false, body := Some(Buffered(run[d].network.value)))
    decreases |run|
  {
    if d > 0 {
      assert run[0] in run[..d];
      assert run[1..][..d - 1] == run[..d][1..];
      assert d < |run| ==> run[1..][d - 1 + 1..] == run[d + 1..];
      ReadInFlight(s, run[1..], d - 1);
    } else if d < |run| {
      assert run[0 + 1..] == run[1..];
      var next := Apply(s, run[0]);
      if run[0].network == None {
        ClosedStays(next, run[1..]);
      } else {
        BufferedStays(next, run[1..]);
      }
    }
  }

  /**
   The first action decides who gets the body. `d` is where the network answers the waiting read, or
   the end of the run; the later actions change the slot only by closing it.
   */
  lemma FirstActionDecides(run: seq<Action>, d: nat)
    requires run != [] && Execute(INIT, run).Some?
    requires 1 <= d <= |run| && (forall e <- run[1..d] :: !e.AReadDone?) && (d < |run| ==> run[d].AReadDone?)
    ensures Execute(INIT, run).value ==
              match run[0]
              case AClose => State(None, false, 0, false)
              case StartStream =>
                if AClose in run then State(None, false, 1, true) else State(Some(Streaming(())), false, 1, false)
              case _ =>
                if d == |run| then State(None, true, 1, false)
                else if run[d].network == None || AClose in run[d + 1..] then State(None, false, 1, false)
                else State(Some(Buffered(run[d].network.value)), false, 1, false)
  {
    var next, rest := Apply(INIT, run[0]), run[1..];
    assert run == [run[0]] + rest;
    match run[0] {
      case AClose => ClosedStays(next, rest);
      case StartStream => HandedOutStreamCloses(next, rest);
      case ARead =>
        assert rest[..d - 1] == run[1..d];
        assert d < |run| ==> rest[d - 1 + 1..] == run[d + 1..];
        ReadInFlight(next, rest, d - 1);
    }
  }

  /** Told from a run: it gave the body to a stream that was not closed since. */
  predicate HoldsStream(run: seq<Action>) {
    run != [] && run[0] == StartStream && AClose !in run
  }

  /** The network answered the read that took the body with these bytes, and no close came behind. */
  ghost predicate HoldsBytes(run: seq<Action>, bytes: Bytes) {
    && run != [] && run[0] == ARead
    && exists d | 0 < d < |run| :: run[d] == AReadDone(Some(bytes)) && AClose !in run[d + 1..]
  }

  /** What an action is answered with; a read that has to wait is answered by `AReadDone`. */
  datatype Reply = GivesStream | GivesBytes(bytes: Bytes) | Refused(error: BodyError) | Waits | Closes

  function Replied(s: State, e: Action): Reply {
    match e
    case StartStream =>
      if s.body == Some(Live) then GivesStream
      else Refused(if s.body == None then ResponseClosed else StreamConsumed)
    case ARead => (
      match s.body
      case Some(Live) => Waits
      case Some(Buffered(bytes)) => GivesBytes(bytes)
      case Some(Streaming(_)) => Refused(StreamConsumed)
      case None => Refused(ResponseClosed))
    case AReadDone(network) => if network.Some? then GivesBytes(network.value) else Refused(ReadFailed)
    case AClose => Closes
  }

  function DoneFrom(run: seq<Action>, d: nat): (n: nat)
    requires d <= |run|
    ensures d <= n <= |run| && (n < |run| ==> run[n].AReadDone?) && forall i | d <= i < n :: !run[i].AReadDone?
    decreases |run| - d
  {
    if d == |run| || run[d].AReadDone? then d else DoneFrom(run, d + 1)
  }

  /** Only one read is ever answered. */
  lemma {:induction false} NotWaiting(s: State, run: seq<Action>, i: nat)
    requires !s.waiting && s.body != Some(Live) && Execute(s, run).Some? && i < |run|
    ensures !run[i].AReadDone?
    decreases |run|
  {
    if i > 0 {
      NotWaiting(Apply(s, run[0]), run[1..], i - 1);
    }
  }

  lemma {:induction false} AnsweredOnce(s: State, run: seq<Action>, d: nat, i: nat)
    requires s.waiting && s.body == None && Execute(s, run).Some? && d < i < |run| && run[d].AReadDone?
    ensures !run[i].AReadDone?
    decreases |run|
  {
    if run[0].AReadDone? {
      NotWaiting(Apply(s, run[0]), run[1..], i - 1);
    } else {
      AnsweredOnce(Apply(s, run[0]), run[1..], d - 1, i - 1);
    }
  }

  lemma BytesHeld(run: seq<Action>, d: nat)
    requires run != [] && run[0] == ARead && Execute(INIT, run).Some?
    requires 1 <= d <= |run| && (forall i | 1 <= i < d :: !run[i].AReadDone?) && (d < |run| ==> run[d].AReadDone?)
    ensures forall bytes :: HoldsBytes(run, bytes) <==>
              d < |run| && run[d] == AReadDone(Some(bytes)) && AClose !in run[d + 1..]
  {
    forall i | 0 < i < |run| && run[i].AReadDone?
      ensures i == d
    {
      if d < i {
        AnsweredOnce(Apply(INIT, ARead), run[1..], d - 1, i - 1);
      }
    }
    hide Execute;
  }

  /** What the slot holds behind any run, told from the run. */
  lemma SlotHolds(run: seq<Action>)
    requires Execute(INIT, run).Some?
    ensures var slot := Execute(INIT, run).value.body;
            && (slot == Some(Live) <==> run == [])
            && (slot == Some(Streaming(())) <==> HoldsStream(run))
            && forall bytes :: slot == Some(Buffered(bytes)) <==> HoldsBytes(run, bytes)
  {
    if run != [] {
      assert Enabled(INIT, run[0]);
      var d := DoneFrom(run, 1);
      FirstActionDecides(run, d);
      if run[0] == ARead {
        BytesHeld(run, d);
      }
      hide Execute;
    }
  }

  /**
   Every answer of an async response, told from what was done to it before. Only the first action
   can be given the stream or made to wait; later ones are given the bytes in memory, or refused:
   as consumed while the stream is out or the bytes are there, else as closed, so also while a read
   is under way.
   */
  lemma AnswersTold(run: seq<Action>, e: Action)
    requires Execute(INIT, run).Some? && Enabled(Execute(INIT, run).value, e)
    ensures var reply := Replied(Execute(INIT, run).value, e);
            && (reply == GivesStream <==> run == [] && e == StartStream)
            && (reply == Waits <==> run == [] && e == ARead)
            && (forall bytes :: reply == GivesBytes(bytes) <==>
                  e == AReadDone(Some(bytes)) || (e == ARead && HoldsBytes(run, bytes)))
            && (reply == Refused(ReadFailed) <==> e == AReadDone(None))
            && (reply == Refused(StreamConsumed) <==>
                  || (e == StartStream && (HoldsStream(run) || exists bytes :: HoldsBytes(run, bytes)))
                  || (e == ARead && HoldsStream(run)))
            && (reply == Refused(ResponseClosed) <==>
                  && e in {StartStream, ARead} && run != [] && !HoldsStream(run)
                  && forall bytes :: !HoldsBytes(run, bytes))
  {
    SlotHolds(run);
    hide Execute, HoldsStream, HoldsBytes;
    var slot := Execute(INIT, run).value.body;
    match slot {
      case Some(Buffered(bytes)) => assert HoldsBytes(run, bytes);
      case Some(Streaming(nothing)) => assert nothing == ();
      case _ =>
    }
  }

  ghost predicate CanReopen(s: State) {
    exists run :: Execute(s, run).Some? && Execute(s, run).value.body.Some?
  }

  /**
   Closing an async response is not final while an `aread` waits: its bytes are stored into
   the closed slot. A closed response can come back exactly when one is waiting.
   */
  lemma ReopensIffReadInFlight(s: State)
    ensures CanReopen(Apply(s, AClose)) <==> s.waiting
  {
    var closed := Apply(s, AClose);
    if s.waiting {
      FirstAction(closed, AReadDone(Some([])), []);
      assert Execute(closed, [AReadDone(Some([]))] + []).Some?;
    } else {
      forall run
        ensures Execute(closed, run).Some? ==> Execute(closed, run).value.body == None
      {
        ClosedStays(closed, run);
      }
    }
  }

  /** Such a state is reachable: read, close, then the bytes arrive. */
  lemma CloseDuringRead(bytes: seq<byte>)
    ensures Execute(INIT, [ARead, AClose, AReadDone(Some(bytes))])
         == Some(State(Some(Buffered(bytes)), false, 1, false))
  {
    var one := Apply(INIT, ARead);
    var two := Apply(one, AClose);
    var three := Apply(two, AReadDone(Some(bytes)));
    assert [ARead, AClose, AReadDone(Some(bytes))] == [ARead] + ([AClose] + ([AReadDone(Some(bytes))] + []));
    FirstAction(INIT, ARead, [AClose] + ([AReadDone(Some(bytes))] + []));
    FirstAction(one, AClose, [AReadDone(Some(bytes))] + []);
    FirstAction(two, AReadDone(Some(bytes)), []);
    assert Execute(three, []) == Some(three);
    hide Execute;
  }

  lemma FirstAction(s: State, e: Action, rest: seq<Action>)
    requires Enabled(s, e)
    ensures Execute(s, [e] + rest) == Execute(Apply(s, e), rest)
  {
    assert ([e] + rest)[1..] == rest;
  }
}
