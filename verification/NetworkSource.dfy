/**
 The body an iterator reads, as one caller sees it: chunks arrive in order, the
 read may fail, and another thread may close the response before any look at it.
 The protocol between a reader and a concurrent closer is the subject of
 LiveStreamProtocol.
 */
module NetworkSource {
  import opened Prelude

  /** What the network does next: deliver a chunk, or fail the read. */
  datatype Event<+T> = Data(chunk: T) | Broken

  datatype ReadError = StreamClosed | TransportFailed

  /** What one call of an iterator's `__next__` gives back. */
  datatype Step<+T> = Yield(item: T) | Exhausted | Raised(error: ReadError)

  /** How a body comes to its end: read whole, by a read that is still to fail, or with the stream gone. */
  datatype Finish = Complete | CutShort | Gone

  /** Everything an iterator left alone will still do: yield `items`, then finish. */
  datatype Script<+T> = Script(items: seq<T>, finish: Finish)

  /**
   One call serves the script: the first item, or the finish. A completed body stays exhausted; a
   failed read is raised as itself, once, and the stream it dropped is reported closed ever after.
   */
  predicate Serves<T(==)>(before: Script<T>, step: Step<T>, after: Script<T>) {
    if before.items != [] then
      step == Yield(before.items[0]) && after == before.(items := before.items[1..])
    else
      match before.finish
      case Complete => step == Exhausted && after == before
      case CutShort => step == Raised(TransportFailed) && after == Script([], Gone)
      case Gone => step == Raised(StreamClosed) && after == before
  }

  /** The same, unless the call finds the response closed: then it raises and loses nothing. */
  predicate Answers<T(==)>(before: Script<T>, step: Step<T>, after: Script<T>, closed: bool) {
    Serves(before, step, after) || (closed && step == Raised(StreamClosed) && after == before)
  }

  function Yields<T>(steps: seq<Step<T>>): seq<T> {
    if steps == [] then [] else (if steps[0].Yield? then [steps[0].item] else []) + Yields(steps[1..])
  }

  /** Call after call: `scripts[i]` is what is to come before call `i`, `closes[i]` whether it saw a close. */
  predicate Calls<T(==)>(scripts: seq<Script<T>>, steps: seq<Step<T>>, closes: seq<bool>) {
    && |scripts| == |steps| + 1 && |closes| == |steps|
    && forall i | 0 <= i < |steps| :: Answers(scripts[i], steps[i], scripts[i + 1], closes[i])
  }

  /**
   Whenever another thread closes the response, what the calls yield is the front of the script,
   in order and without a gap; what is left of it is still to come; only a completed body that has
   been yielded whole is ever exhausted, and a failure is raised only behind all that arrived.
   */
  lemma {:induction false} YieldedInOrder<T>(scripts: seq<Script<T>>, steps: seq<Step<T>>, closes: seq<bool>)
    requires Calls(scripts, steps, closes)
    ensures scripts[0].items == Yields(steps) + scripts[|steps|].items
    ensures Exhausted in steps ==> Yields(steps) == scripts[0].items && scripts[0].finish == Complete
    ensures Raised(TransportFailed) in steps ==> Yields(steps) == scripts[0].items && scripts[0].finish == CutShort
    ensures scripts[|steps|].finish == if Raised(TransportFailed) in steps then Gone else scripts[0].finish
    decreases |steps|
  {
    if steps != [] {
      LaterCalls(scripts, steps, closes);
      YieldedInOrder(scripts[1..], steps[1..], closes[1..]);
      assert Answers(scripts[0], steps[0], scripts[0 + 1], closes[0]);
      assert steps == [steps[0]] + steps[1..];
      hide Calls, Answers, Serves;
    }
  }

  lemma LaterCalls<T>(scripts: seq<Script<T>>, steps: seq<Step<T>>, closes: seq<bool>)
    requires Calls(scripts, steps, closes) && steps != []
    ensures Calls(scripts[1..], steps[1..], closes[1..])
  {
    hide Answers;
    forall i | 0 <= i < |steps| - 1
      ensures Answers(scripts[1..][i], steps[1..][i], scripts[1..][i + 1], closes[1..][i])
    {
      assert Answers(scripts[i + 1], steps[i + 1], scripts[i + 1 + 1], closes[i + 1]);
    }
  }

  /** The chunks that arrive before the first failed read. */
  function Arriving<T>(events: seq<Event<T>>): seq<T> {
    if events == [] || events[0].Broken? then [] else [events[0].chunk] + Arriving(events[1..])
  }

  function FinishOf<T>(events: seq<Event<T>>): Finish {
    if Breaks(events) then CutShort else Complete
  }

  predicate Breaks<T>(events: seq<Event<T>>) {
    events != [] && (events[0].Broken? || Breaks(events[1..]))
  }

  /** What is left of a stream: the events still to come, and whether it is still held. */
  datatype View<+T> = View(events: seq<Event<T>>, live: bool)

  /** What one read answers and leaves, by whether it finds the response closed. */
  predicate Reads<T(==)>(before: View<T>, r: Result<Option<T>, ReadError>, after: View<T>, closed: bool) {
    if closed || !before.live then r == Err(StreamClosed) && after == before
    else if before.events == [] then r == Ok(None) && after == View([], false)
    else
      match before.events[0]
      case Data(chunk) => r == Ok(Some(chunk)) && after == View(before.events[1..], true)
      case Broken => r == Err(TransportFailed) && after == View(before.events[1..], false)
  }

  class Source<T> {
    var events: seq<Event<T>>
    var live: bool
    var closed: bool

    constructor (events: seq<Event<T>>)
      ensures this.events == events && live && !closed
    {
      this.events, live, closed := events, true, false;
    }

    function Left(): View<T>
      reads this`events, this`live
    {
      View(events, live)
    }

    /** `check_open`, whenever another thread may have closed the response. */
    method CheckOpen() returns (open: bool)
      modifies this`closed
      ensures old(closed) ==> closed
      ensures open == !closed
    {
      var another: bool := *;
      closed := closed || another;
      open := !closed;
    }

    /** A finished or failed read drops the stream, and every later read reports it closed. */
    method NextChunk() returns (r: Result<Option<T>, ReadError>)
      modifies this
      ensures old(closed) ==> closed
      ensures Reads(old(Left()), r, Left(), closed)
    {
      var open := CheckOpen();
      if !open || !live {
        return Err(StreamClosed);
      }
      if events == [] {
        live := false;
        return Ok(None);
      }
      var next := events[0];
      events := events[1..];
      match next
      case Data(chunk) => r := Ok(Some(chunk));
      case Broken =>
        live := false;
        r := Err(TransportFailed);
    }

    method Close()
      modifies this`closed
      ensures closed
    {
      closed := true;
    }
  }
}
