/**
 `ByteChunker` and the iterator that drives it. `feed` overwrites `head` and
 computes `size - carry.len()`: it is only correct between a `next_full` that
 returned nothing and the next one, which is the state `Drained` names and the
 driver keeps.
 */
module ByteChunking {
  import opened Prelude
  import opened NetworkSource
  import opened Pieces

  class ByteChunker {
    const size: Option<nat>
    var carry: Bytes
    var head: Bytes

    constructor (size: Option<nat>)
      requires size.Some? ==> size.value > 0
      ensures this.size == size && Valid() && Drained() && Held() == []
    {
      this.size, carry, head := size, [], [];
    }

    /** An incomplete `carry` means the last chunk was swallowed whole. */
    ghost predicate Valid()
      reads this
    {
      if size.None? then carry == []
      else size.value > 0 && |carry| <= size.value && (0 < |carry| < size.value ==> head == [])
    }

    /** Nothing left to hand out: the state in which the driver feeds. */
    ghost predicate Drained()
      reads this
    {
      head == [] && (size.Some? ==> |carry| < size.value)
    }

    ghost function Held(): Bytes
      reads this
    {
      carry + head
    }

    method Feed(bytes: Bytes)
      requires Valid() && Drained()
      modifies this
      ensures Valid() && Held() == old(Held()) + bytes
      ensures size.Some? ==> |Held()| < size.value + |bytes|
    {
      var rest := bytes;
      if size.Some? && carry != [] {
        var room := size.value - |carry|;
        assert room >= 0;
        var take := if room < |rest| then room else |rest|;
        carry := carry + rest[..take];
        rest := rest[take..];
      }
      head := rest;
    }

    method NextFull() returns (piece: Option<Bytes>)
      requires Valid()
      modifies this
      ensures Valid()
      ensures piece == if size.None? then (if old(head) == [] then None else Some(old(head)))
                       else if |old(Held())| < size.value then None
                       else Some(old(Held())[..size.value])
      ensures piece.None? ==> Drained() && Held() == old(Held())
      ensures piece.Some? ==> piece.value != [] && Held() == old(Held())[|piece.value|..]
    {
      if size.None? {
        if head == [] {
          return None;
        }
        piece := Some(head);
        head := [];
        return;
      }
      if |carry| >= size.value {
        assert Held()[..size.value] == carry[..size.value];
        piece := Some(carry[..size.value]);
        carry := carry[size.value..];
        return;
      }
      if |head| >= size.value && carry == [] {
        assert Held() == head;
        piece := Some(head[..size.value]);
        head := head[size.value..];
        return;
      }
      if head != [] {
        carry := carry + head;
        head := [];
      }
      piece := None;
    }

    method Flush() returns (piece: Option<Bytes>)
      requires Valid()
      modifies this
      ensures Valid() && Drained() && Held() == []
      ensures piece == if old(Held()) == [] then None else Some(old(Held()))
    {
      carry := carry + head;
      head := [];
      if carry == [] {
        return None;
      }
      piece := Some(carry);
      carry := [];
    }
  }

  class ByteIterator {
    const source: Source<Bytes>
    const chunker: ByteChunker
    var finished: bool

    constructor (source: Source<Bytes>, size: Option<nat>)
      requires size.Some? ==> size.value > 0
      requires source.live && !source.closed
      ensures this.source == source && fresh(chunker) && Valid()
      ensures var body := Concat(Arriving(source.events));
              Future() == match size
                case None => Script(NonEmpty(Arriving(source.events)), FinishOf(source.events))
                case Some(n) => if Breaks(source.events) then Script(Whole(body, n), CutShort)
                                else Script(Cut(body, n), Complete)
    {
      this.source, this.finished := source, false;
      chunker := new ByteChunker(size);
      new;
      assert [] + Concat(Arriving(source.events)) == Concat(Arriving(source.events));
    }

    ghost predicate Valid()
      reads this, chunker
    {
      chunker.Valid() && (finished && chunker.size.None? ==> chunker.head == [])
    }

    /** Everything this iterator still yields if the response is not closed. */
    ghost function Future(): Script<Bytes>
      requires Valid()
      reads this, source`events, source`live, chunker
    {
      PiecesToCome(chunker.size, chunker.Held(), Chunks(), AtEnd())
    }

    ghost function Chunks(): seq<Bytes>
      reads this, source`events, source`live
    {
      if finished || !source.live then [] else Arriving(source.events)
    }

    ghost function AtEnd(): Finish
      reads this, source`events, source`live
    {
      if finished then Complete else if !source.live then Gone else FinishOf(source.events)
    }

    /** Once drained: reads one more chunk, or notes the end; raises if there is none to read. */
    method Pull() returns (raised: Option<Step<Bytes>>)
      requires Valid() && chunker.Drained() && !finished
      modifies this, source, chunker
      ensures Valid() && (old(source.closed) ==> source.closed)
      ensures raised.None? ==> Future() == old(Future())
      ensures raised.Some? ==> !finished && Answers(old(Future()), raised.value, Future(), source.closed)
      ensures raised.Some? && !source.closed ==> Serves(old(Future()), raised.value, Future())
      ensures raised.None? ==> !source.closed
      ensures raised.None? ==> finished || |source.events| < |old(source.events)|
      ensures finished ==> |source.events| <= |old(source.events)|
    {
      hide PiecesToCome, Concat;
      ghost var held, chunks, finish := chunker.Held(), Chunks(), AtEnd();
      if chunks == [] {
        NothingToCome(chunker.size, held, finish);
        NothingToCome(chunker.size, held, Gone);
      } else {
        ReadChunk(chunker.size, held, chunks, finish);
      }
      var chunk := source.NextChunk();
      if chunk.Err? {
        return Some(Raised(chunk.error));
      }
      if chunk.value.Some? {
        assert Chunks() == chunks[1..] && AtEnd() == finish;
        chunker.Feed(chunk.value.value);
      } else {
        finished := true;
      }
      raised := None;
    }

    /** Once drained, behind the end: hands out what is left. */
    method Last() returns (r: Step<Bytes>)
      requires Valid() && chunker.Drained() && finished
      modifies chunker
      ensures Valid() && Serves(old(Future()), r, Future())
    {
      hide PiecesToCome, Concat;
      NothingToCome(chunker.size, chunker.Held(), Complete);
      var last := chunker.Flush();
      NothingToCome<byte>(chunker.size, [], Complete);
      r := if last.Some? then Yield(last.value) else Exhausted;
    }

    /** Serves a piece that is already full. */
    method Ready() returns (piece: Option<Bytes>)
      requires Valid()
      modifies chunker
      ensures Valid()
      ensures piece.Some? ==> Serves(old(Future()), Yield(piece.value), Future())
      ensures piece.None? ==> chunker.Drained() && Future() == old(Future())
    {
      hide PiecesToCome, Concat;
      ghost var held, chunks, finish := chunker.Held(), Chunks(), AtEnd();
      assert chunker.size.None? ==> held == chunker.head;
      piece := chunker.NextFull();
      if piece.Some? {
        assert piece.value == held[..|piece.value|];
        ServePiece(chunker.size, held, chunks, finish);
        assert Future() == PiecesToCome(chunker.size, held[|piece.value|..], chunks, finish);
        assert old(Future()).items == [piece.value] + Future().items;
      }
    }

    method Next() returns (r: Step<Bytes>)
      requires Valid()
      modifies this, source, chunker
      ensures Valid()
      ensures old(source.closed) ==> source.closed
      ensures Answers(old(Future()), r, Future(), source.closed)
      ensures old(finished) || !source.closed ==> Serves(old(Future()), r, Future())
      ensures old(!finished && source.closed) ==> r == Raised(StreamClosed)
    {
      hide Chunks, AtEnd, PiecesToCome, Serves;
      while true
        invariant Valid() && (old(source.closed) ==> source.closed)
        invariant Future() == old(Future())
        invariant old(!finished && source.closed) ==> !finished
        invariant old(finished) ==> finished
        invariant finished && !old(finished) ==> !source.closed
        decreases |source.events| + if finished then 0 else 1
      {
        if !finished {
          var open := source.CheckOpen();
          if !open {
            return Raised(StreamClosed);
          }
        }
        var piece := Ready();
        if piece.Some? {
          return Yield(piece.value);
        }
        if finished {
          r := Last();
          return;
        }
        var raised := Pull();
        if raised.Some? {
          return raised.value;
        }
      }
    }
  }
}
