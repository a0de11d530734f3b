/**
 The line iterator over a response body: `__next__` drains the lines already
 split, then reads, decodes and feeds chunks until there is one. The byte decoder
 is a parameter: the source delivers decoded text, and `tail` is the text the
 decoder flushes at the end of the stream.
 */
module LineIteration {
  import opened Prelude
  import opened NetworkSource
  import opened LineDecoding

  /** The lines still to come from a decoder in state `s` reading `events`. */
  function LinesToCome(s: State, events: seq<Event<string>>, tail: string): Script<string> {
    var text := Concat(Arriving(events));
    if Breaks(events) then Script(Run(s, text).lines, CutShort)
    else
      var fed := Run(s, text + tail);
      Script(fed.lines + Leftover(fed.state), Complete)
  }

  lemma ReadChunk(s: State, events: seq<Event<string>>, tail: string)
    requires events != [] && events[0].Data?
    ensures var fed := Run(s, events[0].chunk);
            var rest := LinesToCome(fed.state, events[1..], tail);
            LinesToCome(s, events, tail) == Script(fed.lines + rest.items, rest.finish)
  {
    hide Run;
    var chunk, text := events[0].chunk, Concat(Arriving(events[1..]));
    assert Arriving(events)[1..] == Arriving(events[1..]);
    assert (chunk + text) + tail == chunk + (text + tail);
    RunAppend(s, chunk, text);
    RunAppend(s, chunk, text + tail);
  }

  lemma ReadEnd(s: State, tail: string)
    ensures LinesToCome(s, [], tail) == Script(Run(s, tail).lines + Leftover(Run(s, tail).state), Complete)
  {
    assert [] + tail == tail;
  }

  lemma ReadFailure(s: State, events: seq<Event<string>>, tail: string)
    requires events != [] && events[0].Broken?
    ensures LinesToCome(s, events, tail) == Script([], CutShort)
  {
  }

  /** A body that ends yields the lines of its whole text, wherever the network cut it. */
  lemma WholeBody(events: seq<Event<string>>, tail: string)
    requires !Breaks(events)
    ensures LinesToCome(START, events, tail) == Script(SplitLines(Concat(Arriving(events)) + tail), Complete)
  {
    RunIsLines([], Concat(Arriving(events)) + tail);
  }

  class LineIterator {
    const source: Source<string>
    const tail: string
    const lines: LineDecoder
    var pending: seq<string>
    var finished: bool

    constructor (source: Source<string>, tail: string)
      requires source.live && !source.closed
      ensures this.source == source && fresh(lines)
      ensures Future() == LinesToCome(START, source.events, tail)
      ensures !Breaks(source.events) ==>
                Future() == Script(SplitLines(Concat(Arriving(source.events)) + tail), Complete)
    {
      this.source, this.tail, this.pending, this.finished := source, tail, [], false;
      lines := new LineDecoder();
      new;
      if !Breaks(source.events) {
        WholeBody(source.events, tail);
      }
    }

    /** Everything this iterator still yields if the response is not closed. */
    ghost function Future(): Script<string>
      reads this, source`events, source`live, lines
    {
      if finished then Script(pending, Complete)
      else if !source.live then Script(pending, Gone)
      else
        var rest := LinesToCome(lines.Now(), source.events, tail);
        Script(pending + rest.items, rest.finish)
    }

    /** With no line left: reads and splits one more chunk, or the tail at the end; raises if there is none to read. */
    method Pull() returns (raised: Option<Step<string>>)
      requires pending == [] && !finished
      modifies this, source, lines
      ensures old(source.closed) ==> source.closed
      ensures raised.None? ==> Future() == old(Future())
      ensures raised.Some? ==> !finished && Answers(old(Future()), raised.value, Future(), source.closed)
      ensures raised.Some? && !source.closed ==> Serves(old(Future()), raised.value, Future())
      ensures raised.None? ==> !source.closed
      ensures raised.None? ==> finished || |source.events| < |old(source.events)|
      ensures finished ==> |source.events| <= |old(source.events)|
    {
      hide LinesToCome, Run;
      ghost var state, events, live := lines.Now(), source.events, source.live;
      var chunk := source.NextChunk();
      if live && events != [] && events[0].Data? {
        ReadChunk(state, events, tail);
      } else if live && events == [] {
        ReadEnd(state, tail);
      } else if live {
        ReadFailure(state, events, tail);
      }
      if chunk.Err? {
        return Some(Raised(chunk.error));
      }
      if chunk.value.Some? {
        var fed := lines.Feed(chunk.value.value);
        pending := pending + fed;
      } else {
        var fed := lines.Feed(tail);
        pending := pending + fed;
        var last := lines.Flush();
        if last.Some? {
          pending := pending + [last.value];
        }
        finished := true;
      }
      raised := None;
    }

    method Next() returns (r: Step<string>)
      modifies this, source, lines
      ensures old(source.closed) ==> source.closed
      ensures Answers(old(Future()), r, Future(), source.closed)
      ensures old(finished) || !source.closed ==> Serves(old(Future()), r, Future())
      ensures old(!finished && source.closed) ==> r == Raised(StreamClosed)
    {
      hide LinesToCome, Run;
      while true
        invariant Future() == old(Future()) && (old(source.closed) ==> source.closed)
        invariant old(!finished && source.closed) ==> !finished
        invariant old(finished) ==> finished
        invariant finished && !old(finished) ==> !source.closed
        decreases |source.events| + if finished then 0 else 1
      {
        if !finished {
          var open := source.CheckOpen();
          if !open {
            return Raised(StreamClosed);
          }
        }
        if pending != [] {
          r := Yield(pending[0]);
          pending := pending[1..];
          return;
        }
        if finished {
          return Exhausted;
        }
        var raised := Pull();
        if raised.Some? {
          return raised.value;
        }
      }
    }
  }
}
