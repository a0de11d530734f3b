/**
 `TextChunker` and the iterator that drives it. The chunker counts characters but
 keeps UTF-8 bytes and byte offsets, and drops consumed text lazily: `pending`
 is the consumed text followed by the unread text, cut at `consumed`.
 */
module TextChunking {
  import opened Prelude
  import opened NetworkSource
  import opened Pieces
  import opened Utf8

  class TextChunker {
    const size: Option<nat>
    var pending: Bytes
    var consumed: nat
    ghost var dropped: string
    ghost var unread: string

    constructor (size: Option<nat>)
      requires size.Some? ==> size.value > 0
      ensures this.size == size && Valid() && unread == []
    {
      this.size, pending, consumed := size, [], 0;
      dropped, unread := [], [];
    }

    ghost predicate Valid()
      reads this
    {
      && (size.Some? ==> size.value > 0)
      && pending == Encode(dropped) + Encode(unread)
      && consumed == |Encode(dropped)|
    }

    /** The bytes behind `consumed`: a slice that never splits a character. */
    function Unread(): (rest: Bytes)
      requires Valid()
      reads this
      ensures rest == Encode(unread)
    {
      BetweenChars(dropped, unread);
      Slice(pending, consumed, |pending|)
    }

    method Feed(text: string)
      requires Valid()
      modifies this
      ensures Valid() && consumed == 0
      ensures unread == old(unread) + text
    {
      if consumed > 0 {
        pending := Unread();
        consumed := 0;
      }
      dropped := [];
      pending := pending + Encode(text);
      EncodeAppend(unread, text);
      unread := unread + text;
    }

    method NextFull() returns (piece: Option<Bytes>)
      requires Valid()
      modifies this
      ensures Valid()
      ensures var width := if size.None? then |old(unread)| else size.value;
              if width == 0 || |old(unread)| < width then piece == None && unread == old(unread)
              else piece == Some(Encode(old(unread)[..width])) && unread == old(unread)[width..]
    {
      hide Encode;
      var rest := Unread();
      if size.None? {
        consumed := |pending|;
        EncodeAppend(dropped, unread);
        EmptyText();
        ghost var text := unread;
        dropped, unread := dropped + unread, [];
        EmptyOnly(text);
        assert text[..|text|] == text && text[|text|..] == [];
        return if rest == [] then None else Some(rest);
      }
      FirstChars(unread, size.value);
      var last := NthChar(rest, size.value - 1);
      if last.None? {
        return None;
      }
      var end := last.value.0 + last.value.1;
      piece := Some(Slice(rest, 0, end));
      ghost var first, more := unread[..size.value], unread[size.value..];
      EncodeAppend(dropped, first);
      consumed := consumed + end;
      dropped, unread := dropped + first, more;
    }

    method Flush() returns (rest: Option<Bytes>)
      requires Valid()
      modifies this
      ensures Valid() && unread == []
      ensures rest == if old(unread) == [] then None else Some(Encode(old(unread)))
    {
      var text := Unread();
      EmptyOnly(unread);
      pending := [];
      consumed := 0;
      dropped, unread := [], [];
      rest := if text == [] then None else Some(text);
    }
  }

  /** The first `size` characters of a text, found in its bytes. */
  lemma FirstChars(text: string, size: nat)
    requires size > 0
    ensures NthChar(Encode(text), size - 1).Some? <==> size <= |text|
    ensures size <= |text| ==>
              var (start, width) := NthChar(Encode(text), size - 1).value;
              var first, more := Encode(text[..size]), Encode(text[size..]);
              && start + width == |first| && Encode(text) == first + more
              && first + more == Encode(text) && (first + more)[..|first|] == first
              && IsCharBoundary(Encode(text), |first|)
  {
    hide Encode, NthChar;
    NthCharOfText(text, size - 1);
    if size <= |text| {
      var first, more := text[..size], text[size..];
      assert first == text[..size - 1] + [text[size - 1]];
      EncodeAppend(text[..size - 1], [text[size - 1]]);
      EncodeOne(text[size - 1]);
      assert text == first + more;
      EncodeAppend(first, more);
      BetweenChars(first, more);
    }
  }

  lemma EmptyText()
    ensures Encode([]) == []
  {
  }

  lemma EmptyOnly(text: string)
    ensures Encode(text) == [] <==> text == []
  {
  }

  /** The texts the driver will feed: the decoded chunks and, unless a read fails, the tail. */
  function ToFeed(events: seq<Event<string>>, tail: string): seq<string> {
    if events == [] then [tail]
    else if events[0].Broken? then []
    else [events[0].chunk] + ToFeed(events[1..], tail)
  }

  lemma {:induction false} ToFeedIs(events: seq<Event<string>>, tail: string)
    ensures ToFeed(events, tail) == Arriving(events) + if Breaks(events) then [] else [tail]
  {
    if events != [] && events[0].Data? {
      ToFeedIs(events[1..], tail);
    }
  }

  class TextIterator {
    const source: Source<string>
    /** What the byte decoder flushes at the end of the stream. */
    const tail: string
    const chunker: TextChunker
    var finished: bool

    constructor (source: Source<string>, tail: string, size: Option<nat>)
      requires size.Some? ==> size.value > 0
      requires source.live && !source.closed
      ensures this.source == source && fresh(chunker) && Valid()
      ensures var chunks := Arriving(source.events);
              Future() == if Breaks(source.events) then
                            Script(if size.None? then NonEmpty(chunks) else Whole(Concat(chunks), size.value), CutShort)
                          else
                            Script(if size.None? then NonEmpty(chunks + [tail])
                                   else Cut(Concat(chunks) + tail, size.value), Complete)
    {
      this.source, this.tail, this.finished := source, tail, false;
      chunker := new TextChunker(size);
      new;
      var chunks := Arriving(source.events);
      ToFeedIs(source.events, tail);
      assert chunks + [] == chunks;
      ConcatAppend(chunks, [tail]);
      assert Concat([tail]) == tail + [] == tail;
      assert [] + Concat(Chunks()) == Concat(Chunks());
    }

    ghost predicate Valid()
      reads this, chunker
    {
      chunker.Valid()
    }

    /** Everything this iterator still yields if the response is not closed. */
    ghost function Future(): Script<string>
      requires Valid()
      reads this, source`events, source`live, chunker
    {
      PiecesToCome(chunker.size, chunker.unread, Chunks(), AtEnd())
    }

    ghost function Chunks(): seq<string>
      reads this, source`events, source`live
    {
      if finished || !source.live then [] else ToFeed(source.events, tail)
    }

    ghost function AtEnd(): Finish
      reads this, source`events, source`live
    {
      if finished then Complete else if !source.live then Gone else FinishOf(source.events)
    }

    /** Serves a piece that is already full. */
    method Ready() returns (piece: Option<string>)
      requires Valid()
      modifies chunker
      ensures Valid()
      ensures piece.Some? ==> Serves(old(Future()), Yield(piece.value), Future())
      ensures piece.None? ==> Future() == old(Future())
      ensures piece.None? ==> if chunker.size.None? then chunker.unread == [] else |chunker.unread| < chunker.size.value
    {
      hide PiecesToCome, Concat, Encode, Decode;
      ghost var unread, chunks, finish := chunker.unread, Chunks(), AtEnd();
      var bytes := chunker.NextFull();
      if bytes.None? {
        return None;
      }
      ServePiece(chunker.size, unread, chunks, finish);
      ghost var width := |unread| - |chunker.unread|;
      DecodeEncode(unread[..width]);
      piece := Some(Decode(bytes.value));
      assert old(Future()).items == [piece.value] + Future().items;
    }

    /** With nothing full: reads and decodes one more chunk, or the tail at the end; raises if there is none to read. */
    method Pull() returns (raised: Option<Step<string>>)
      requires Valid() && !finished
      requires if chunker.size.None? then chunker.unread == [] else |chunker.unread| < chunker.size.value
      modifies this, source, chunker
      ensures Valid() && (old(source.closed) ==> source.closed)
      ensures raised.None? ==> Future() == old(Future())
      ensures raised.Some? ==> !finished && Answers(old(Future()), raised.value, Future(), source.closed)
      ensures raised.Some? && !source.closed ==> Serves(old(Future()), raised.value, Future())
      ensures raised.None? ==> !source.closed
      ensures raised.None? ==> finished || |source.events| < |old(source.events)|
      ensures finished ==> |source.events| <= |old(source.events)|
    {
      hide PiecesToCome, Concat, Encode, Decode;
      ghost var unread, chunks, finish := chunker.unread, Chunks(), AtEnd();
      if chunks == [] {
        NothingToCome(chunker.size, unread, finish);
        NothingToCome(chunker.size, unread, Gone);
      } else {
        ReadChunk(chunker.size, unread, chunks, finish);
      }
      var chunk := source.NextChunk();
      if chunk.Err? {
        return Some(Raised(chunk.error));
      }
      if chunk.value.Some? {
        assert Chunks() == chunks[1..] && AtEnd() == finish;
        chunker.Feed(chunk.value.value);
      } else {
        assert chunks == [tail] && chunks[1..] == [];
        finished := true;
        chunker.Feed(tail);
      }
      raised := None;
    }

    /** Behind the end, with nothing full: hands out what is left. */
    method Last() returns (r: Step<string>)
      requires Valid() && finished
      requires if chunker.size.None? then chunker.unread == [] else |chunker.unread| < chunker.size.value
      modifies chunker
      ensures Valid() && Serves(old(Future()), r, Future())
    {
      hide PiecesToCome, Concat, Encode, Decode;
      ghost var unread := chunker.unread;
      NothingToCome(chunker.size, unread, Complete);
      var last := chunker.Flush();
      NothingToCome<char>(chunker.size, [], Complete);
      DecodeEncode(unread);
      r := if last.Some? then Yield(Decode(last.value)) else Exhausted;
    }

    method Next() returns (r: Step<string>)
      requires Valid()
      modifies this, source, chunker
      ensures Valid()
      ensures old(source.closed) ==> source.closed
      ensures Answers(old(Future()), r, Future(), source.closed)
      ensures old(finished) || !source.closed ==> Serves(old(Future()), r, Future())
      ensures old(!finished && source.closed) ==> r == Raised(StreamClosed)
    {
      hide Chunks, AtEnd, PiecesToCome, Serves;
      while true
        invariant Valid() && (old(source.closed) ==> source.closed)
        invariant Future() == old(Future())
        invariant old(!finished && source.closed) ==> !finished
        invariant old(finished) ==> finished
        invariant finished && !old(finished) ==> !source.closed
        decreases |source.events| + if finished then 0 else 1
      {
        if !finished {
          var open := source.CheckOpen();
          if !open {
            return Raised(StreamClosed);
          }
        }
        var piece := Ready();
        if piece.Some? {
          return Yield(piece.value);
        }
        if finished {
          r := Last();
          return;
        }
        var raised := Pull();
        if raised.Some? {
          return raised.value;
        }
      }
    }
  }
}
