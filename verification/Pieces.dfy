/** Cutting a whole body into pieces of an exact size: what the chunkers compute piecemeal. */
module Pieces {
  import opened Prelude
  import opened NetworkSource

  /** The whole pieces of `size` elements at the front of the body. */
  function Whole<T>(body: seq<T>, size: nat): seq<seq<T>>
    requires size > 0
    decreases |body|
  {
    if |body| < size then [] else [body[..size]] + Whole(body[size..], size)
  }

  /** What is left behind the whole pieces. */
  function Remainder<T>(body: seq<T>, size: nat): seq<T>
    requires size > 0
    decreases |body|
  {
    if |body| < size then body else Remainder(body[size..], size)
  }

  function AsPiece<T>(rest: seq<T>): seq<seq<T>> {
    if rest == [] then [] else [rest]
  }

  function Cut<T>(body: seq<T>, size: nat): seq<seq<T>>
    requires size > 0
  {
    Whole(body, size) + AsPiece(Remainder(body, size))
  }

  /** Without a size the chunks pass through, the empty ones dropped. */
  function NonEmpty<T>(chunks: seq<seq<T>>): seq<seq<T>> {
    if chunks == [] then [] else AsPiece(chunks[0]) + NonEmpty(chunks[1..])
  }

  /** Pieces of exactly `size`, the last one shorter but never empty. */
  predicate Exact<T>(pieces: seq<seq<T>>, size: nat) {
    if |pieces| <= 1 then pieces == [] || 0 < |pieces[0]| <= size
    else |pieces[0]| == size && Exact(pieces[1..], size)
  }

  lemma {:induction false} CutIsExact<T>(body: seq<T>, size: nat)
    requires size > 0
    ensures Concat(Cut(body, size)) == body && Exact(Cut(body, size), size)
    decreases |body|
  {
    var pieces := Cut(body, size);
    if |body| >= size {
      var rest := Cut(body[size..], size);
      CutIsExact(body[size..], size);
      assert pieces == [body[..size]] + rest;
      assert pieces[1..] == rest;
      if rest == [] {
        assert body[size..] == [];
      }
    } else if body != [] {
      assert pieces == [body] && pieces[1..] == [];
    }
  }

  /** There is no other way to cut a body exactly. */
  lemma {:induction false} ExactIsCut<T>(pieces: seq<seq<T>>, size: nat)
    requires size > 0 && Exact(pieces, size)
    ensures pieces == Cut(Concat(pieces), size)
    decreases |pieces|
  {
    var body := Concat(pieces);
    if |pieces| == 1 {
      assert pieces[1..] == [];
      assert body == pieces[0];
      if |body| == size {
        assert body[..size] == body && body[size..] == [];
      }
    } else if |pieces| > 1 {
      assert body[..size] == pieces[0] && body[size..] == Concat(pieces[1..]);
      ExactIsCut(pieces[1..], size);
    }
  }

  /** Whole pieces already cut stay the same whatever arrives later. */
  lemma {:induction false} WholeAppend<T>(body: seq<T>, more: seq<T>, size: nat)
    requires size > 0
    ensures Whole(body + more, size) == Whole(body, size) + Whole(Remainder(body, size) + more, size)
    ensures Remainder(body + more, size) == Remainder(Remainder(body, size) + more, size)
    decreases |body|
  {
    if |body| >= size {
      assert (body + more)[..size] == body[..size] && (body + more)[size..] == body[size..] + more;
      WholeAppend(body[size..], more, size);
    }
  }

  /** Pieces handed out before a failed read are the first pieces of any longer body. */
  lemma PiecesStand<T>(body: seq<T>, more: seq<T>, size: nat)
    requires size > 0
    ensures Whole(body, size) <= Cut(body + more, size)
  {
    WholeAppend(body, more, size);
  }

  /** What a chunker holding `held` still hands out, given the chunks that will arrive. */
  function PiecesToCome<T>(size: Option<nat>, held: seq<T>, chunks: seq<seq<T>>, finish: Finish): Script<seq<T>>
    requires size.Some? ==> size.value > 0
  {
    match size
    case None => Script(AsPiece(held) + NonEmpty(chunks), finish)
    case Some(n) =>
      var body := held + Concat(chunks);
      Script(if finish == Complete then Cut(body, n) else Whole(body, n), finish)
  }

  lemma ReadChunk<T>(size: Option<nat>, held: seq<T>, chunks: seq<seq<T>>, finish: Finish)
    requires size.Some? ==> size.value > 0
    requires size.None? ==> held == []
    requires chunks != []
    ensures PiecesToCome(size, held, chunks, finish) == PiecesToCome(size, held + chunks[0], chunks[1..], finish)
  {
    assert held + Concat(chunks) == (held + chunks[0]) + Concat(chunks[1..]);
    assert size.None? ==> held + chunks[0] == chunks[0];
  }

  /** A full piece in hand is the next one served. */
  lemma ServePiece<T>(size: Option<nat>, held: seq<T>, chunks: seq<seq<T>>, finish: Finish)
    requires size.Some? ==> 0 < size.value <= |held|
    requires size.None? ==> held != []
    ensures var width := if size.None? then |held| else size.value;
            var rest := PiecesToCome(size, held[width..], chunks, finish);
            PiecesToCome(size, held, chunks, finish) == Script([held[..width]] + rest.items, rest.finish)
  {
    match size
    case None =>
      assert held[..|held|] == held && held[|held|..] == [];
      assert AsPiece(held) + NonEmpty(chunks) == [held] + ([] + NonEmpty(chunks));
    case Some(n) =>
      var body, left := held + Concat(chunks), held[n..] + Concat(chunks);
      assert body[..n] == held[..n] && body[n..] == left;
      assert Cut(body, n) == [held[..n]] + Cut(left, n);
  }

  lemma NothingToCome<T>(size: Option<nat>, held: seq<T>, finish: Finish)
    requires size.Some? ==> |held| < size.value
    requires size.None? ==> held == []
    ensures PiecesToCome(size, held, [], finish) == Script(if finish == Complete then AsPiece(held) else [], finish)
  {
    assert held + [] == held;
  }
}
