/**
 The line splitter: `str.splitlines` over a whole text, and the decoder that
 reaches the same lines when the text arrives in arbitrary cuts.

 The decoder is specified by an automaton that reads one character at a time.
 Running the automaton over a concatenation is running it twice, so what remains
 hard is that `feed`, which re-splits each chunk, is the automaton.
 */
module LineDecoding {
  import opened Prelude

  predicate IsLineBreak(c: char) {
    || c == '\n' || c == '\r' || c == '\U{0b}' || c == '\U{0c}'
    || c == '\U{1c}' || c == '\U{1d}' || c == '\U{1e}'
    || c == '\U{85}' || c == '\U{2028}' || c == '\U{2029}'
  }

  /** The lines of `text` when `current` is the part of the first one already read. */
  function LinesFrom(current: string, text: string): seq<string>
    decreases |text|
  {
    if text == [] then (if current == [] then [] else [current])
    else if text[0] == '\r' && |text| > 1 && text[1] == '\n' then [current] + LinesFrom([], text[2..])
    else if IsLineBreak(text[0]) then [current] + LinesFrom([], text[1..])
    else LinesFrom(current + [text[0]], text[1..])
  }

  function SplitLines(text: string): seq<string> {
    LinesFrom([], text)
  }

  /** The decoder between two characters: the partial line, and whether a `\r` is held back. */
  datatype State = State(buffer: string, trailingCr: bool)

  datatype Fed = Fed(lines: seq<string>, state: State)

  const START := State([], false)

  function Step(s: State, c: char): Fed {
    if c == '\r' then
      Fed(if s.trailingCr then [s.buffer] else [], State(if s.trailingCr then [] else s.buffer, true))
    else if s.trailingCr then
      if c == '\n' then Fed([s.buffer], State([], false))
      else if IsLineBreak(c) then Fed([s.buffer, []], State([], false))
      else Fed([s.buffer], State([c], false))
    else if IsLineBreak(c) then Fed([s.buffer], State([], false))
    else Fed([], State(s.buffer + [c], false))
  }

  function Run(s: State, text: string): Fed
    decreases |text|
  {
    if text == [] then Fed([], s)
    else
      var first := Step(s, text[0]);
      var rest := Run(first.state, text[1..]);
      Fed(first.lines + rest.lines, rest.state)
  }

  /** What `flush` still emits: a partial line, or an empty one ended by a held-back `\r`. */
  function Leftover(s: State): seq<string> {
    if s.buffer == [] && !s.trailingCr then [] else [s.buffer]
  }

  lemma RunStep(s: State, text: string)
    requires text != []
    ensures var first := Step(s, text[0]);
            var rest := Run(first.state, text[1..]);
            Run(s, text) == Fed(first.lines + rest.lines, rest.state)
  {
  }

  lemma RunOne(s: State, c: char)
    ensures Run(s, [c]) == Step(s, c) && Run(s, []) == Fed([], s)
  {
    assert [c][1..] == [];
  }

  lemma {:induction false} RunAppend(s: State, a: string, b: string)
    ensures var first := Run(s, a);
            var rest := Run(first.state, b);
            Run(s, a + b) == Fed(first.lines + rest.lines, rest.state)
    decreases |a|
  {
    hide Run, Step;
    if a == [] {
      RunOne(s, '\r');
      assert a + b == b;
    } else {
      var one := Step(s, a[0]);
      assert (a + b)[0] == a[0] && (a + b)[1..] == a[1..] + b;
      RunStep(s, a + b);
      RunStep(s, a);
      RunAppend(one.state, a[1..], b);
      var middle := Run(one.state, a[1..]);
      var rest := Run(middle.state, b);
      assert one.lines + (middle.lines + rest.lines) == (one.lines + middle.lines) + rest.lines;
    }
  }

  /** A held-back `\r` is exactly a `\r` put in front of the next chunk. */
  lemma HeldCr(buffer: string, text: string)
    ensures Run(State(buffer, true), text) == Run(State(buffer, false), "\r" + text)
  {
    assert ("\r" + text)[1..] == text;
  }

  /** A held-back `\r` that no `\n` follows ends the line, and the text goes on from a fresh one. */
  lemma CrEndsLine(buffer: string, text: string)
    requires text != [] && text[0] != '\n'
    ensures var tail := Run(START, text);
            Run(State(buffer, true), text) == Fed([buffer] + tail.lines, tail.state)
  {
    assert Step(State(buffer, true), text[0])
        == Fed([buffer] + Step(START, text[0]).lines, Step(START, text[0]).state);
  }

  /** The lines of a text behind a partial line are what the automaton emits and would still flush. */
  predicate SameLines(buffer: string, text: string) {
    var r := Run(State(buffer, false), text);
    LinesFrom(buffer, text) == r.lines + Leftover(r.state)
  }

  /** The automaton loses nothing: its lines and its leftover are the lines of the text. */
  lemma {:induction false} RunIsLines(buffer: string, text: string)
    ensures SameLines(buffer, text)
    decreases |text|
  {
    if text == [] {
    } else if text[0] == '\r' && |text| > 1 && text[1] == '\n' {
      RunIsLines([], text[2..]);
      CrLfEndsLine(buffer, text);
    } else if text[0] == '\r' && |text| > 1 {
      RunIsLines([], text[1..]);
      LoneCrEndsLine(buffer, text);
    } else if IsLineBreak(text[0]) {
      RunIsLines([], text[1..]);
      BreakEndsLine(buffer, text);
    } else {
      RunIsLines(buffer + [text[0]], text[1..]);
    }
  }

  lemma CrLfEndsLine(buffer: string, text: string)
    requires |text| > 1 && text[0] == '\r' && text[1] == '\n' && SameLines([], text[2..])
    ensures SameLines(buffer, text)
  {
    assert LinesFrom(buffer, text) == [buffer] + LinesFrom([], text[2..]);
    hide Run, LinesFrom;
    var rest, tail := text[1..], Run(START, text[2..]);
    assert rest[0] == '\n' && rest[1..] == text[2..];
    RunStep(State(buffer, false), text);
    RunStep(State(buffer, true), rest);
    assert [] + ([buffer] + tail.lines) == [buffer] + tail.lines;
  }

  lemma LoneCrEndsLine(buffer: string, text: string)
    requires |text| > 1 && text[0] == '\r' && text[1] != '\n' && SameLines([], text[1..])
    ensures SameLines(buffer, text)
  {
    assert LinesFrom(buffer, text) == [buffer] + LinesFrom([], text[1..]);
    hide Run, LinesFrom;
    var tail := Run(START, text[1..]);
    CrEndsLine(buffer, text[1..]);
    RunStep(State(buffer, false), text);
    assert [] + ([buffer] + tail.lines) == [buffer] + tail.lines;
  }

  lemma BreakEndsLine(buffer: string, text: string)
    requires text != [] && IsLineBreak(text[0]) && (text[0] == '\r' ==> |text| == 1) && SameLines([], text[1..])
    ensures SameLines(buffer, text)
  {
    var tail := Run(START, text[1..]);
    if text[0] == '\r' {
      assert text[1..] == [] && LinesFrom(buffer, text) == [buffer] + LinesFrom([], []);
    } else {
      assert Run(State(buffer, false), text) == Fed([buffer] + tail.lines, tail.state);
      assert LinesFrom(buffer, text) == [buffer] + LinesFrom([], text[1..]);
    }
  }

  /** The last character decides what the automaton is left holding. */
  lemma RunLast(s: State, text: string)
    requires text != []
    ensures var end := Run(s, text).state;
            var c := text[|text| - 1];
            && end.trailingCr == (c == '\r')
            && (IsLineBreak(c) && c != '\r' ==> end.buffer == [])
            && (!IsLineBreak(c) ==> end.buffer != [])
  {
    var front, c := text[..|text| - 1], text[|text| - 1];
    assert text == front + [c];
    RunAppend(s, front, [c]);
    var mid := Run(s, front).state;
    RunOne(mid, c);
  }

  /** A buffered partial line only lengthens the first line of the next chunk. */
  lemma {:induction false} LinesPrefix(buffer: string, current: string, text: string)
    requires text != [] || current != []
    ensures var plain := LinesFrom(current, text);
            plain != [] && LinesFrom(buffer + current, text) == [buffer + plain[0]] + plain[1..]
    decreases |text|
  {
    if text == [] {
    } else if IsLineBreak(text[0]) {
    } else {
      assert buffer + (current + [text[0]]) == (buffer + current) + [text[0]];
      LinesPrefix(buffer, current + [text[0]], text[1..]);
    }
  }

  /** The lines of a chunk with the buffered partial line in front of the first. */
  function Joined(buffer: string, lines: seq<string>): seq<string> {
    if buffer == [] || lines == [] then lines else lines[0 := buffer + lines[0]]
  }

  lemma JoinedIsLines(buffer: string, text: string)
    requires text != []
    ensures SplitLines(text) != []
    ensures Joined(buffer, SplitLines(text)) == LinesFrom(buffer, text)
  {
    hide LinesFrom;
    LinesPrefix(buffer, [], text);
    assert buffer + [] == buffer;
  }

  /** Re-splitting a chunk as a whole; `cr` is a `\r` held back after `text`. */
  function Resplit(buffer: string, text: string, cr: bool): Fed {
    if text == [] then Fed([], State(buffer, cr))
    else
      JoinedIsLines(buffer, text);
      var lines := Joined(buffer, SplitLines(text));
      if IsLineBreak(text[|text| - 1]) then Fed(lines, State([], cr))
      else Fed(lines[..|lines| - 1], State(lines[|lines| - 1], cr))
  }

  lemma NothingNew(buffer: string, cr: bool)
    ensures Resplit(buffer, [], cr) == Fed([], State(buffer, cr))
  {
  }

  /** The same by patching the lines of the chunk in place. */
  lemma Patched(buffer: string, text: string, cr: bool)
    requires text != []
    ensures var lines, ended := SplitLines(text), IsLineBreak(text[|text| - 1]);
            && lines != []
            && (|lines| == 1 && !ended ==> Resplit(buffer, text, cr) == Fed([], State(buffer + lines[0], cr)))
            && var joined := if buffer != [] then lines[0 := buffer + lines[0]] else lines;
               Resplit(buffer, text, cr) ==
               if ended then Fed(joined, State([], cr))
               else Fed(joined[..|joined| - 1], State(joined[|joined| - 1], cr))
  {
    hide LinesFrom;
    JoinedIsLines(buffer, text);
    assert [] + SplitLines(text)[0] == SplitLines(text)[0];
  }

  function WithHeldCr(s: State, chunk: string): string {
    if s.trailingCr then "\r" + chunk else chunk
  }

  predicate EndsInCr(text: string) {
    text != [] && text[|text| - 1] == '\r'
  }

  /** What one `feed` emits and keeps. */
  function FeedOnce(s: State, chunk: string): Fed {
    var text := WithHeldCr(s, chunk);
    if EndsInCr(text) then Resplit(s.buffer, text[..|text| - 1], true) else Resplit(s.buffer, text, false)
  }

  lemma ResplitIsRun(buffer: string, text: string, cr: bool)
    requires EndsInCr(text) ==> cr
    ensures Resplit(buffer, text, cr) == Run(State(buffer, false), if cr then text + "\r" else text)
  {
    hide LinesFrom, Run;
    var r := Run(State(buffer, false), text);
    RunOne(r.state, '\r');
    RunAppend(State(buffer, false), text, "\r");
    if text == [] {
      RunOne(State(buffer, false), '\r');
      assert text + "\r" == "\r";
    } else {
      var lines := Joined(buffer, SplitLines(text));
      JoinedIsLines(buffer, text);
      RunLast(State(buffer, false), text);
      RunIsLines(buffer, text);
      assert lines == r.lines + Leftover(r.state);
      if r.state.buffer != [] {
        assert lines[..|lines| - 1] == r.lines && lines[|lines| - 1] == r.state.buffer;
      }
    }
  }

  /** Re-splitting each chunk is reading it character by character. */
  lemma FeedOnceIsRun(s: State, chunk: string)
    ensures FeedOnce(s, chunk) == Run(s, chunk)
  {
    hide Run, Resplit;
    var text := WithHeldCr(s, chunk);
    HeldCr(s.buffer, chunk);
    if EndsInCr(text) {
      assert text == text[..|text| - 1] + "\r";
      ResplitIsRun(s.buffer, text[..|text| - 1], true);
    } else {
      ResplitIsRun(s.buffer, text, false);
    }
  }

  /** Feeding chunk after chunk. */
  function FeedAll(s: State, chunks: seq<string>): Fed
    decreases |chunks|
  {
    if chunks == [] then Fed([], s)
    else
      var first := FeedOnce(s, chunks[0]);
      var rest := FeedAll(first.state, chunks[1..]);
      Fed(first.lines + rest.lines, rest.state)
  }

  /** Chunk invariance: only the concatenated text matters, for the lines and for the state. */
  lemma {:induction false} FeedAllIsRun(s: State, chunks: seq<string>)
    ensures FeedAll(s, chunks) == Run(s, Concat(chunks))
    decreases |chunks|
  {
    hide Run, FeedOnce;
    if chunks == [] {
      RunOne(s, '\r');
    } else {
      FeedOnceIsRun(s, chunks[0]);
      FeedAllIsRun(FeedOnce(s, chunks[0]).state, chunks[1..]);
      RunAppend(s, chunks[0], Concat(chunks[1..]));
    }
  }

  /** Whatever the cuts, feeding and flushing gives the lines of the whole text. */
  lemma ChunkInvariance(chunks: seq<string>)
    ensures var fed := FeedAll(START, chunks);
            fed.lines + Leftover(fed.state) == SplitLines(Concat(chunks))
  {
    FeedAllIsRun(START, chunks);
    RunIsLines([], Concat(chunks));
  }

  /** Lines already emitted stand, whatever text follows: the reason a `\r` is held back. */
  lemma SettledLines(text: string, more: string)
    ensures Run(START, text).lines <= SplitLines(text + more)
  {
    hide Run, LinesFrom;
    RunAppend(START, text, more);
    RunIsLines([], text + more);
  }

  /** A line and the characters that ended it. */
  datatype Ended = Ended(text: string, end: string)

  /**
   The line boundaries of Python's `str.splitlines`: line feed up to carriage return, the file, group
   and record separators, the next line, and the line and paragraph separators of Unicode.
   */
  predicate IsBoundary(c: char) {
    var point := c as int;
    10 <= point <= 13 || 28 <= point <= 30 || point == 0x85 || 0x2028 <= point <= 0x2029
  }

  predicate BreakFree(text: string) {
    forall c <- text :: !IsBoundary(c)
  }

  predicate IsTerminator(end: string) {
    end == "\r\n" || (|end| == 1 && IsBoundary(end[0]))
  }

  function Unsplit(lines: seq<Ended>, last: string): string {
    if lines == [] then last else lines[0].text + (lines[0].end + Unsplit(lines[1..], last))
  }

  function Texts(lines: seq<Ended>): seq<string> {
    if lines == [] then [] else [lines[0].text] + Texts(lines[1..])
  }

  /** A reading of a text as lines: no line holds a break, and no `\r` is half of a `\r\n`. */
  predicate Reading(lines: seq<Ended>, last: string) {
    if lines == [] then BreakFree(last)
    else
      var after := Unsplit(lines[1..], last);
      && BreakFree(lines[0].text)
      && IsTerminator(lines[0].end)
      && !(lines[0].end == "\r" && after != [] && after[0] == '\n')
      && Reading(lines[1..], last)
  }

  lemma {:induction false} SkipBreakFree(current: string, text: string, rest: string)
    requires BreakFree(text)
    ensures LinesFrom(current, text + rest) == LinesFrom(current + text, rest)
    decreases |text|
  {
    if text == [] {
      assert text + rest == rest && current + text == current;
    } else {
      assert !IsBoundary(text[0]) && (text + rest)[1..] == text[1..] + rest;
      assert (current + [text[0]]) + text[1..] == current + text;
      SkipBreakFree(current + [text[0]], text[1..], rest);
    }
  }

  lemma EndLine(line: string, end: string, rest: string)
    requires IsTerminator(end) && !(end == "\r" && rest != [] && rest[0] == '\n')
    ensures LinesFrom(line, end + rest) == [line] + LinesFrom([], rest)
  {
    var text := end + rest;
    assert text[|end|..] == rest;
    assert |rest| > 0 ==> text[|end|] == rest[0];
  }

  /** `split_lines` recovers the lines of any reading of the text, and drops an empty last one. */
  lemma {:induction false} SplitRecovers(lines: seq<Ended>, last: string)
    requires Reading(lines, last)
    ensures SplitLines(Unsplit(lines, last)) == Texts(lines) + (if last == [] then [] else [last])
    decreases |lines|
  {
    hide LinesFrom;
    if lines == [] {
      SkipBreakFree([], last, []);
      assert last + [] == last && [] + last == last;
      LastLine(last);
    } else {
      var after := Unsplit(lines[1..], last);
      SkipBreakFree([], lines[0].text, lines[0].end + after);
      assert [] + lines[0].text == lines[0].text;
      EndLine(lines[0].text, lines[0].end, after);
      SplitRecovers(lines[1..], last);
    }
  }

  /** Every text has such a reading, so the two lemmas determine `split_lines` completely. */
  lemma {:induction false} EveryTextReads(text: string) returns (lines: seq<Ended>, last: string)
    ensures Reading(lines, last) && Unsplit(lines, last) == text
    decreases |text|
  {
    if text == [] {
      return [], [];
    }
    if IsLineBreak(text[0]) {
      var width := if text[0] == '\r' && |text| > 1 && text[1] == '\n' then 2 else 1;
      lines, last := EveryTextReads(text[width..]);
      lines := [Ended([], text[..width])] + lines;
      assert [] + (text[..width] + text[width..]) == text;
      assert |text[..width]| == 1 ==> text[..width] == [text[0]];
      assert width == 2 ==> text[..width] == "\r\n";
    } else {
      var rest, end := EveryTextReads(text[1..]);
      if rest == [] {
        lines, last := [], [text[0]] + end;
      } else {
        var first := rest[0];
        lines, last := [Ended([text[0]] + first.text, first.end)] + rest[1..], end;
        assert lines[1..] == rest[1..];
        var after := Unsplit(rest[1..], end);
        assert ([text[0]] + first.text) + (first.end + after) == [text[0]] + (first.text + (first.end + after));
      }
    }
  }

  /** One turn of the splitting loop, from the lines already complete. */
  lemma NextLine(lines: seq<string>, current: string, rest: string)
    requires rest != []
    ensures lines + LinesFrom(current, rest)
         == if rest[0] == '\r' && |rest| > 1 && rest[1] == '\n' then (lines + [current]) + LinesFrom([], rest[2..])
            else if IsLineBreak(rest[0]) then (lines + [current]) + LinesFrom([], rest[1..])
            else lines + LinesFrom(current + [rest[0]], rest[1..])
  {
  }

  lemma LastLine(current: string)
    ensures LinesFrom(current, []) == if current == [] then [] else [current]
  {
  }

  class LineDecoder {
    var buffer: string
    var trailingCr: bool

    constructor ()
      ensures Now() == START
    {
      buffer, trailingCr := [], false;
    }

    ghost function Now(): State
      reads this
    {
      State(buffer, trailingCr)
    }

    static method SplitText(text: string) returns (lines: seq<string>)
      ensures lines == SplitLines(text)
    {
      hide LinesFrom;
      lines := [];
      var current, i := [], 0;
      assert text[0..] == text;
      while i < |text|
        invariant 0 <= i <= |text|
        invariant lines + LinesFrom(current, text[i..]) == SplitLines(text)
      {
        var c := text[i];
        ghost var rest := text[i..];
        assert rest[0] == c && rest[1..] == text[i + 1..];
        assert |rest| > 1 ==> rest[1] == text[i + 1] && rest[2..] == text[i + 2..];
        NextLine(lines, current, rest);
        i := i + 1;
        if c == '\r' {
          if i < |text| && text[i] == '\n' {
            i := i + 1;
          }
          lines, current := lines + [current], [];
        } else if IsLineBreak(c) {
          lines, current := lines + [current], [];
        } else {
          current := current + [c];
        }
      }
      LastLine(current);
      assert text[i..] == [];
      if current != [] {
        lines := lines + [current];
      }
    }

    method Feed(chunk: string) returns (lines: seq<string>)
      modifies this
      ensures Fed(lines, Now()) == Run(old(Now()), chunk)
    {
      hide LinesFrom, Run, Resplit;
      FeedOnceIsRun(Now(), chunk);
      ghost var kept := buffer;
      var text := chunk;
      if trailingCr {
        trailingCr := false;
        text := "\r" + text;
      }
      assert text == WithHeldCr(old(Now()), chunk);
      hide WithHeldCr;
      if text != [] && text[|text| - 1] == '\r' {
        trailingCr := true;
        text := text[..|text| - 1];
      }
      assert Resplit(kept, text, trailingCr) == FeedOnce(old(Now()), chunk);
      NothingNew(kept, trailingCr);
      hide FeedOnce;
      if text == [] {
        return [];
      }
      lines := Patch(text);
    }

    /** The rest of `feed`, once the held-back `\r` is settled: split the text and patch its ends. */
    method Patch(text: string) returns (lines: seq<string>)
      requires text != []
      modifies this
      ensures Fed(lines, Now()) == Resplit(old(buffer), text, old(trailingCr))
    {
      Patched(buffer, text, trailingCr);
      hide Resplit, SplitLines, LinesFrom;
      var trailingNewline := IsLineBreak(text[|text| - 1]);
      lines := SplitText(text);
      if |lines| == 1 && !trailingNewline {
        buffer := buffer + lines[0];
        return [];
      }
      if buffer != [] {
        lines := lines[0 := buffer + lines[0]];
        buffer := [];
      }
      if !trailingNewline {
        buffer := lines[|lines| - 1];
        lines := lines[..|lines| - 1];
      }
    }

    method Flush() returns (last: Option<string>)
      modifies this
      ensures Now() == START
      ensures Leftover(old(Now())) == if last.Some? then [last.value] else []
    {
      if buffer == [] && !trailingCr {
        return None;
      }
      trailingCr := false;
      last := Some(buffer);
      buffer := [];
    }
  }
}
