# rqx, modelled and proved in Dafny

rqx is an HTTP client with a Rust core and a Python face. Its network I/O belongs to other crates;
what is its own are five pieces of logic whose promises concern whole runs. This project models them
and proves those promises.

`dafny verify dfyconfig.toml` checks everything.

**Streaming regroupers.** `LineDecoder.dfy`, `ByteChunker.dfy` and `TextChunker.dfy` hold the
classes that turn arbitrarily cut network chunks into lines and exact pieces, and the iterators that
drive them; `Pieces.dfy` and `Utf8.dfy` hold what exact cutting and UTF-8 mean, `Utf8Malformed.dfy`
what decoding does to bytes that are no UTF-8, and `NetworkSource.dfy` the stream as one caller sees
it, which another thread may close at any time. The results are of one kind: the output depends on
the concatenated body only. For lines the specification is an automaton that reads one character at
a time; that re-splitting whole chunks agrees with it, and that it agrees with splitting the whole
text, are the two hard lemmas. `feed` of the byte chunker is sound only after `next_full` has come
back empty-handed, so class and driver are proved together.

**The process runtime.** `RuntimeSlot.dfy` interleaves any number of threads one atomic access at a
time, with forks in between, and proves that no runtime outlives shutdown, published or not, that
callers agree, and that only unpublished slots are freed. The comment at runtime.rs:23-26 says a
child always gets a runtime of its own. That is not so when the operating system gives a later
descendant the process id that is written in the slot it inherits: a grandchild can then be handed
its grandparent's runtime, whose threads it does not have, or shut it down. Both runs are given, and
in every reachable state the condition is proved exact for `handle` and for `shutdown`.
`RuntimeHandles.dfy` proves what a call comes back with: while nothing is closed, a call left alone
has a handle after a bounded number of accesses, from any reachable state, and once shutdown has
begun no later call gets one.

**Closing against reading.** `LiveStream.dfy` interleaves readers and closers over a fair lock, a
flag and a one-permit notification: no wake-up is lost, closing is final, and it is never stuck: how
many accesses pass before a waiting closer gets the lock is bounded over every run.
`LiveStreamReads.dfy` tells the answers of `next_chunk` over every run: exactly what the network
delivered, in order, until the stream ends, fails or is closed; so the protocol keeps the contract
of `Source.NextChunk`, which the iterators are proved against. `StreamBody.dfy` models the body
slot. Closing the *async* response is not final while an `aread` is in flight, since its bytes are
stored into the closed slot; it can come back exactly then.

**Retries and redirects.** `Retry.dfy`, `Redirect.dfy` and `Client.dfy` are two nested loops driven
by an arbitrary trace of outcomes: exact attempt counts, backoff sums, telemetry, and what happens
to credentials, cookies, method and body over a whole chain. `RetryPromises.dfy` states what a send
comes back with from the trace alone, without the loop's own functions.

**Data algorithms.** `PairLists.dfy`, `PairDicts.dfy`, `PairGroups.dfy`, `FormUrlencoded.dfy`,
`FormReading.dfy` and `QueryPairs.dfy` prove that a flat list of pairs behaves as an
insertion-ordered dict of lists, with merge laws and a text round trip. Two laws the design suggests
for all lists hold for grouped ones only, and exactly for those: merging a list with itself, and the
round trip. `FormReading.dfy` says what parsing means for text nobody serialized.
`JsonEncoding.dfy`, `JsonDecoding.dfy` and `JsonRoundTrip.dfy` treat the encoder of possibly cyclic
Python object graphs and its inverse: which graphs are accepted, which error is raised, and both
round trips.

Classes and loops of the original are classes and loops here, each tied to a function of its inputs
or its old state; the laws are lemmas about those functions. The rows below name the members whose
contracts say so. Members whose contracts are only steps of a proof have no row.

## Model

| member | source | states |
|---|---|---|
| `LineDecoding.RunAppend` | crates/rqx-core/src/streaming/decoding.rs:84-122 | reading a concatenation is reading one part and then the other from the state the first left |
| `LineDecoding.RunIsLines` | crates/rqx-core/src/streaming/decoding.rs:62-82 | the character automaton, with what it would still flush, gives exactly the lines of the text behind any partial line |
| `LineDecoding.SplitRecovers` | crates/rqx-core/src/streaming/decoding.rs:62-82 | for every way a text reads as lines with terminators (CRLF one break, no CR that is half of a CRLF), splitting returns those lines and drops an empty last one |
| `LineDecoding.EveryTextReads` | crates/rqx-core/src/streaming/decoding.rs:62-82 | every text has such a reading, so the previous row determines the splitter completely |
| `LineDecoding.ResplitIsRun` | crates/rqx-core/src/streaming/decoding.rs:101-121 | splitting a chunk as a whole and patching the first and last line agrees with reading it character by character |
| `LineDecoding.FeedOnceIsRun` | crates/rqx-core/src/streaming/decoding.rs:84-122 | one feed, held-back CR included, is the automaton on that chunk, whatever came before |
| `LineDecoding.FeedAllIsRun` | crates/rqx-core/src/streaming/decoding.rs:84-122 | lines and state after any sequence of feeds depend on the concatenated text only |
| `LineDecoding.ChunkInvariance` | crates/rqx-core/src/streaming/decoding.rs:62-131 | for every cutting, empty chunks and cuts inside CRLF included, all feeds and the flush give the lines of the whole text |
| `LineDecoding.SettledLines` | crates/rqx-core/src/streaming/decoding.rs:92-95 | lines already handed out are a prefix of the lines of any continuation, which is why a trailing CR waits |
| `LineDecoding.LineDecoder.SplitText` | crates/rqx-core/src/streaming/decoding.rs:62-82 | the loop computes the lines of the text |
| `LineDecoding.LineDecoder.Feed` | crates/rqx-core/src/streaming/decoding.rs:84-122 | new lines and new fields are those of the automaton on the chunk from the old fields |
| `LineDecoding.LineDecoder.Patch` | crates/rqx-core/src/streaming/decoding.rs:101-121 | the second half of feed: splitting the chunk and patching its first and last line agree with the specification of a whole re-split |
| `LineDecoding.LineDecoder.Flush` | crates/rqx-core/src/streaming/decoding.rs:125-131 | gives the partial line or the line a held-back CR ended, and leaves the decoder as new |
| `LineIteration.WholeBody` | crates/rqx/src/stream.rs:126-164 | a body that ends yields the lines of its whole text, wherever the network cut it |
| `LineIteration.LineIterator.constructor` | crates/rqx/src/stream.rs:110-118 | a new iterator will yield exactly those lines |
| `LineIteration.LineIterator.Next` | crates/rqx/src/stream.rs:126-164 | whenever another thread closes the response, inside the call included, the call serves the next item of what is still to come, or its finish (exhausted for ever; a failed read as itself, once, and closed from then on), or finds the response closed and loses nothing; unless closed it serves, and so does an ended iterator; closed before the call, it raises |
| `Pieces.CutIsExact` | crates/rqx-core/src/streaming/chunking.rs:3-7 | the cut of a body puts back together to it, in pieces of exactly the size with a shorter non-empty one last |
| `Pieces.ExactIsCut` | crates/rqx-core/src/streaming/chunking.rs:3-7 | there is no other such cutting |
| `Pieces.PiecesStand` | crates/rqx/src/stream.rs:42-63 | pieces handed out before a failed read are the first pieces of any longer body |
| `ByteChunking.ByteChunker.Feed` | crates/rqx-core/src/streaming/chunking.rs:23-31 | between two empty-handed calls of `next_full` the subtraction cannot underflow, no held byte is overwritten, and held bytes stay below the size plus the chunk |
| `ByteChunking.ByteChunker.NextFull` | crates/rqx-core/src/streaming/chunking.rs:34-50 | gives the first whole piece of the held bytes and keeps the rest; empty-handed it leaves the state in which feeding is sound |
| `ByteChunking.ByteChunker.Flush` | crates/rqx-core/src/streaming/chunking.rs:53-57 | in any state gives exactly what is held, once |
| `ByteChunking.ByteIterator.constructor` | crates/rqx/src/stream.rs:30-34 | a new iterator will yield the body cut into pieces of the size, or the non-empty chunks when there is none; if a read fails, the whole pieces before it |
| `ByteChunking.ByteIterator.Next` | crates/rqx/src/stream.rs:42-63 | the same for pieces: the next piece of that script, its finish, or a close that loses nothing; it feeds only when that is sound |
| `Utf8.NthCharOfText` | crates/rqx-core/src/streaming/chunking.rs:94-95 | walking UTF-8 bytes to the nth character finds its byte offset and width |
| `Utf8.BetweenChars` | crates/rqx-core/src/streaming/chunking.rs:89 | a cut between two encoded texts is a character boundary, so slicing there does not panic |
| `Utf8.BoundaryIffBehindChars` | crates/rqx-core/src/streaming/chunking.rs:89-95 | the character boundaries of encoded text, the only places where slicing does not panic, are exactly its beginning and the ends of its characters |
| `Utf8.DecodeEncode` | crates/rqx-core/src/query_params.rs:38 | the replacing UTF-8 decoder of the WHATWG Encoding Standard (section 8.1.1) undoes encoding for every text |
| `Utf8Malformed.DecodeReplaces` | crates/rqx-core/src/query_params.rs:38 | decoding any bytes gives the one text in which each character stands for its encoding and each U+FFFD for a longest start of a character that is not carried on, or for a single byte that starts none, as section 3.9 of the Unicode Standard recommends |
| `TextChunking.TextChunker.Feed` | crates/rqx-core/src/streaming/chunking.rs:79-85 | dropping consumed bytes lazily keeps the unread text, which grows by the new text |
| `TextChunking.TextChunker.NextFull` | crates/rqx-core/src/streaming/chunking.rs:88-99 | gives exactly `size` characters of the unread text, never a split one, and moves past them; without a size gives all of it |
| `TextChunking.TextChunker.Flush` | crates/rqx-core/src/streaming/chunking.rs:101-106 | gives exactly the unread text, once |
| `TextChunking.TextIterator.constructor` | crates/rqx/src/stream.rs:67-72 | a new iterator will yield the decoded text, tail included, cut into pieces of `size` characters |
| `TextChunking.TextIterator.Next` | crates/rqx/src/stream.rs:80-106 | the same for pieces of text |
| `NetworkSource.Source.NextChunk` | crates/rqx-core/src/streaming/live_stream.rs:45-70 | as one caller sees it, with another thread free to close before it looks: a closed or dropped stream is refused and left alone, a chunk is passed on, an end and a failed read are each reported as themselves and drop the stream |
| `NetworkSource.Source.CheckOpen` | crates/rqx-core/src/streaming/live_stream.rs:93-98 | reports whether some thread has closed the response by now; a close is never undone |
| `NetworkSource.YieldedInOrder` | crates/rqx/src/stream.rs:42-164 | over any number of calls and whatever closes come between their looks, what was yielded is the front of the script without a gap, the rest is still to come, only a completed body yielded whole is ever exhausted, and a failed read is raised only behind everything that arrived before it, leaving the stream gone |
| `StreamBody.CheckedChunkSize` | crates/rqx/src/stream.rs:572-577 | refuses exactly a chunk size of zero |
| `StreamBody.SyncResponse.StartStream` | crates/rqx/src/stream.rs:580-599 | succeeds exactly when the body is live, with a fresh stream the response keeps a handle on; every other state is put back and reported |
| `StreamBody.SyncResponse.Read` | crates/rqx/src/stream.rs:400-416 | reads a live body once, repeats a buffered one, refuses a streaming or closed one; a failed read leaves the response closed |
| `StreamBody.SyncResponse.Close` | crates/rqx/src/stream.rs:355-359 | leaves the slot empty, and marks a stream that was handed out closed |
| `StreamBody.HandedOutOnce` | crates/rqx/src/stream.rs:675-703 | in every interleaving the live body of an async response is given away at most once |
| `StreamBody.ClosedStays` | crates/rqx/src/stream.rs:710-719 | with no `aread` in flight a closed async response never changes again |
| `StreamBody.HandedOutStreamCloses` | crates/rqx/src/stream.rs:710-719 | once an async response has handed out a stream, every run either changes nothing or leaves the slot empty and that stream closed for good |
| `StreamBody.FirstActionDecides` | crates/rqx/src/stream.rs:675-719 | the state behind any run of an async response, told from the run: its first action takes the body to a stream, to a waiting read, or closes it; a stream is then only closed; a read waits until the network answers it, and bytes that came stay until a close behind that |
| `StreamBody.SlotHolds` | crates/rqx/src/stream.rs:675-719 | behind any run the slot is live exactly when nothing was done, holds the stream exactly when the first action started it and no close came, and holds bytes exactly when the network gave them to the first action and no close came behind |
| `StreamBody.AnswersTold` | crates/rqx/src/stream.rs:580-719 | every answer of an async response, told from what was done before: only the first action gets the stream or is made to wait; later ones get the bytes in memory, or are refused as consumed while stream or bytes are there, else as closed, also while a read is under way |
| `StreamBody.ReopensIffReadInFlight` | crates/rqx/src/stream.rs:680-703 | a closed async response can hold a body again if and only if an `aread` was waiting when it was closed |
| `StreamBody.CloseDuringRead` | crates/rqx/src/stream.rs:699-703 | such a state is reachable: read, close, then the bytes arrive and are stored |
| `LiveStreamProtocol.StepKeepsInv` | crates/rqx-core/src/streaming/live_stream.rs:45-88 | every atomic step of readers, closers, the network and cancellation keeps the protocol invariant |
| `LiveStreamProtocol.RunKeepsInv` | crates/rqx-core/src/streaming/live_stream.rs:45-98 | the invariant holds after every interleaving |
| `LiveStreamProtocol.NoLostWakeUp` | crates/rqx-core/src/streaming/live_stream.rs:51-58 | behind a finished `mark_closed`, every reader past its open check has a wake-up or a stored permit waiting, and a parked one can go on |
| `LiveStreamProtocol.HolderLetsGo` | crates/rqx-core/src/streaming/live_stream.rs:75-78 | behind a finished `mark_closed`, the lock holder can always go on, needs nothing of the network, and lets go within three accesses |
| `LiveStreamProtocol.OthersLeaveTheHolder` | crates/rqx-core/src/streaming/live_stream.rs:72-78 | no step of another thread sets the holder back |
| `LiveStreamProtocol.StepKeepsQueue` | crates/rqx-core/src/streaming/live_stream.rs:46 | exactly the threads that want the lock stand in its queue, once each, after every step |
| `LiveStreamProtocol.TurnShortens` | crates/rqx-core/src/streaming/live_stream.rs:72-83 | while a closer waits, the access whose turn it is, of the holder or of the first in the queue, can always be made and shortens the wait |
| `LiveStreamProtocol.OthersDoNotDelay` | crates/rqx-core/src/streaming/live_stream.rs:72-83 | no step of any other thread, arrivals and cancellations included, lengthens it |
| `LiveStreamProtocol.CloserGetsIn` | crates/rqx-core/src/streaming/live_stream.rs:72-83 | over every continuation of every run, a waiting closer gets the lock after at most three accesses of the holder and two of each thread in front of it, and until then there is always one that can be made |
| `LiveStreamProtocol.CloseIsFinal` | crates/rqx-core/src/streaming/live_stream.rs:72-98 | after a `close` has returned the stream is gone, and every `next_chunk` begun after the flag was set reports closed and never a chunk |
| `LiveStreamProtocol.OneHolder` | crates/rqx-core/src/streaming/live_stream.rs:46 | at most one thread at a time is inside the lock |
| `LiveStreamReads.StepTells` | crates/rqx-core/src/streaming/live_stream.rs:45-70 | a step by which a call of `next_chunk` returns adds one answer, and no other step any: what the network delivered in it, or a refusal with the response closed or the stream dropped; all but bytes and a refusal at the first look leave the stream dropped |
| `LiveStreamReads.StepKeepsReads` | crates/rqx-core/src/streaming/live_stream.rs:45-98 | every step keeps that the answers agree with the deliveries so far, that every refusal has its reason, and that a reader polls only an open stream |
| `LiveStreamReads.ToldAsDelivered` | crates/rqx-core/src/streaming/live_stream.rs:45-98 | over every run the answers other than refusals are exactly the deliveries of the network, one for one and in order, an end as an end and a failure as a failure, with nothing behind either; refusals are for good, and only behind a close, an end or a failure |
| `LiveStreamReads.CallIsAnswered` | crates/rqx-core/src/streaming/live_stream.rs:45-70 | from every reachable state with nobody in the lock or waiting for it, a call is told within five accesses what the network delivers to it, or that the stream is closed exactly if it was closed or had been dropped |
| `LiveStreamReads.KeepsSourcePromise` | crates/rqx-core/src/streaming/live_stream.rs:45-70 | refinement: whatever stream of events the deliveries of a run come from, its answers are one after another what the contract of `Source.NextChunk` allows on that stream |
| `RuntimeSlot.StepKeepsInv` | crates/rqx/src/runtime.rs:98-108 | every atomic access of `handle`, `build`, `retract` and `shutdown`, and every fork, keeps the invariant |
| `RuntimeSlot.PublishKeepsInv` | crates/rqx/src/runtime.rs:256-260 | a successful compare-and-swap keeps the invariant, and what it displaces is the runtime of another process |
| `RuntimeSlot.SwapKeepsInv` | crates/rqx/src/runtime.rs:163-164 | the swap at shutdown keeps the invariant and makes its thread the taker of what it swapped out |
| `RuntimeSlot.NoRuntimeOutlivesShutdown` | crates/rqx/src/runtime.rs:162-287 | after any run with shutdown begun and no call in flight, every runtime this process built was published and shut down, once, or freed unpublished, and `current` holds none of them |
| `RuntimeSlot.StepKeepsHands` | crates/rqx/src/runtime.rs:238-286 | a slot this process built and neither published nor freed is still in the hands of its builder, after every step |
| `RuntimeSlot.StepKeepsLive` | crates/rqx/src/runtime.rs:162-178 | whatever is in `current` still has its runtime, after every step |
| `RuntimeSlot.HandlesAgree` | crates/rqx/src/runtime.rs:98-108 | all handles one process got before shutdown began are for one slot |
| `RuntimeHandles.StepSettles` | crates/rqx/src/runtime.rs:205-287 | a step by which a call of `handle` returns gives out exactly one handle, for a published slot of this process and while nothing is closed for the one in `current`, unless one of its looks found `closed` set or its build failed; no other step gives out any |
| `RuntimeHandles.CallGetsHandle` | crates/rqx/src/runtime.rs:205-287 | from every reachable state with nothing closed, a thread that calls `handle` and is left alone with a build that succeeds has within six accesses a handle for what is in `current`, a published slot of its process |
| `RuntimeHandles.CallUnderWayGetsHandle` | crates/rqx/src/runtime.rs:205-287 | the same within seven accesses for a call already on its way, the loser of the race to install among them |
| `RuntimeHandles.LoserGetsWinners` | crates/rqx/src/runtime.rs:256-286 | a call that finds another thread of its process has published first frees its own slot and hands out the winner’s |
| `RuntimeHandles.NoHandleAfterClose` | crates/rqx/src/runtime.rs:162-178 | over every continuation, no call of `handle` that begins after `closed` is set is given a handle, here or in a forked process |
| `RuntimeSlot.ShutDownOnceFreedUnseen` | crates/rqx/src/runtime.rs:71-76 | no runtime is shut down twice; a freed slot was never published, is not current and was never given out |
| `RuntimeSlot.InheritedRuntimesStayUntouched` | crates/rqx/src/runtime.rs:229-234 | if no child is given the process id written in the slot it inherits, no inherited runtime is given out or shut down |
| `RuntimeSlot.CorpseIffPidReused` | crates/rqx/src/runtime.rs:23-26 | a child that calls `handle` is given the inherited runtime if and only if its process id is the one in that slot |
| `RuntimeSlot.CorpseShutDownIffPidReused` | crates/rqx/src/runtime.rs:165-169 | a child that calls `shutdown`, begun before the fork or not, takes the inherited runtime out if and only if its process id is the one in that slot |
| `RuntimeSlot.TouchedIffPidReused` | crates/rqx/src/runtime.rs:228-234 | both of these in every state a run can reach |
| `RuntimeSlot.GrandchildGetsCorpse` | crates/rqx/src/runtime.rs:228-234 | a concrete run in which a grandchild with a reused process id gets its grandparent's runtime |
| `RuntimeSlot.GrandchildShutsCorpseDown` | crates/rqx/src/runtime.rs:165-177 | a concrete run in which the same descendant shuts that runtime down instead |
| `JsonEncoding.EncodePath.Enter` | crates/rqx/src/py_json.rs:53-65 | refuses an open container as circular and the one thousand and first as too deep, in that order; otherwise opens it |
| `JsonEncoding.EncodePath.Leave` | crates/rqx/src/py_json.rs:67-69 | closes the innermost container |
| `JsonEncoding.EncodeObject` | crates/rqx/src/py_json.rs:77-128 | the walk computes the encoder function and on success hands the path back as it found it |
| `JsonEncoding.EncodeSequence` | crates/rqx/src/py_json.rs:108-112 | the item loop computes the items in order and stops at the first failure |
| `JsonEncoding.EncodeDict` | crates/rqx/src/py_json.rs:99-103 | the entry loop settles each key before its value, inserts in order and stops at the first failure |
| `JsonEncoding.Extract` | crates/rqx/src/py_json.rs:191-194 | a body is encoded from an empty path |
| `JsonEncoding.KeysAreSpelledAsValues` | crates/rqx/src/py_json.rs:162-180 | a scalar key that could stand as a value is written as RFC 8259 writes that value |
| `Prelude.DecimalSpells` | crates/rqx/src/py_json.rs:178-180 | a text is what is printed of an integer if and only if it reads as that integer in base ten, with no zeros in front that are not needed |
| `JsonEncoding.ScalarsExactly` | crates/rqx/src/py_json.rs:131-160 | scalars are taken exactly when they are None, a bool, text, an integer of 64 bits signed or unsigned, or a finite float; every other kind raises its own error |
| `JsonEncoding.KeysExactly` | crates/rqx/src/py_json.rs:162-185 | keys are taken exactly when they are text, None, a bool, any integer or a finite float, each with its text; containers and foreign objects raise the key error with their type, other floats and broken text their own |
| `JsonEncoding.SuccessIsClean` | crates/rqx/src/py_json.rs:77-128 | after a success, no position below the root offends |
| `JsonEncoding.FailureIsFirstOffence` | crates/rqx/src/py_json.rs:77-128 | a failure is the offence of the first offending position in reading order |
| `JsonEncoding.ErrorIsFirstOffence` | crates/rqx/src/py_json.rs:77-128 | an error is raised if and only if it is the one of the first offending position |
| `JsonEncoding.EncodesExactly` | crates/rqx/src/py_json.rs:46-128 | a graph is accepted if and only if every reachable scalar and key is of a kind that can be written, nothing contains itself, and nesting is at most one thousand; sharing is no obstacle |
| `JsonEncoding.ErrorsAreReal` | crates/rqx/src/py_json.rs:53-65 | a circular error implies a real cycle, a depth error real nesting beyond the limit, any other a reachable scalar or key whose kind has that very error |
| `JsonDecoding.ValueToPy` | crates/rqx/src/py_json.rs:7-37 | the recursive decoder with its loops computes the decoding function |
| `JsonDecoding.BuiltIsExact` | crates/rqx/src/py_json.rs:94-104 | a series of insertions leaves each key once, where it first came, with the value that came last |
| `JsonDecoding.DecodeBuilt` | crates/rqx/src/py_json.rs:29-35 | building a map and then decoding its values is decoding them and then building |
| `JsonRoundTrip.RepresentsOnce` | crates/rqx/src/py_json.rs:77-128 | an object unfolds into at most one tree, however its parts are shared |
| `JsonRoundTrip.GraphEncodesAsTree` | crates/rqx/src/py_json.rs:77-128 | a graph that unfolds into a tree is accepted if and only if the tree is clean and nests within the limit, and encodes to the JSON of the tree |
| `JsonRoundTrip.DecodeOfEncode` | crates/rqx/src/py_json.rs:7-185 | decoding undoes encoding up to tuples as lists, keys as text, and colliding keys settled by insertion |
| `JsonRoundTrip.PlainIsKept` | crates/rqx/src/py_json.rs:7-185 | trees of lists, scalars and dicts with distinct text keys come back unchanged |
| `JsonRoundTrip.EncodeOfDecode` | crates/rqx/src/py_json.rs:7-185 | for every value serde_json can hold, encoding undoes decoding |
| `JsonRoundTrip.EncodesProperly` | crates/rqx/src/py_json.rs:131-160 | the encoder makes such values only |
| `JsonRoundTrip.RoundTrip` | crates/rqx/src/py_json.rs:7-128 | whatever graph is accepted unfolds into a tree, and decoding gives that tree normalized |
| `JsonRoundTrip.IntsAreExact` | crates/rqx/src/py_json.rs:12-21 | integers are accepted exactly from -2^63 to 2^64 - 1, and come back unchanged |
| `FormUrlencoded.UnescapeEscape` | crates/rqx-core/src/query_params.rs:38 | percent-decoding undoes percent-encoding for every byte string |
| `FormUrlencoded.ParseSerialize` | crates/rqx-core/src/query_params.rs:169-177 | section 5 of the WHATWG URL Standard: every list of pairs survives being written and read, empty keys and values included |
| `FormReading.UnescapeReads` | crates/rqx-core/src/query_params.rs:38 | section 1.3 of the WHATWG URL Standard, for text of any origin: a plus is a space, a percent sign in front of two hexadecimal digits of either case is their byte, everything else is itself |
| `FormReading.EveryTextReads` | crates/rqx-core/src/query_params.rs:38 | every text has such a reading, so decoding is determined on all of them |
| `FormReading.EscapeByteExactly` | crates/rqx-core/src/query_params.rs:169-177 | letters, digits and the four marks are written as themselves, a space as a plus, every other byte as a percent sign and two upper-case digits |
| `FormReading.ParseLists` | crates/rqx-core/src/query_params.rs:36-42 | any text is cut at every ampersand, each segment that is not empty at its first equals sign, name and value decoded, a missing value empty |
| `FormReading.EveryTextSplits` | crates/rqx-core/src/query_params.rs:36-42 | every text is such a row of segments |
| `PairLists.GetListMerged` | crates/rqx-core/src/query_params.rs:117-141 | for every key, the merged list has the values of the other list if it has any, else those of this one |
| `PairLists.MergeAssociative` | crates/rqx-core/src/query_params.rs:117-141 | merge is associative on all lists, order included |
| `PairLists.MergeUnit` | crates/rqx-core/src/query_params.rs:117-141 | the empty list is a unit on both sides |
| `PairDicts.AbsSnoc` | crates/rqx-core/src/query_params.rs:44-45 | a pair at the end is an append to its key's list in the dict a list stands for |
| `PairDicts.MergeIsUpdate` | crates/rqx-core/src/query_params.rs:117-141 | merge is an ordered dict update: known keys keep their place and take the other's list, new keys follow in the other's order |
| `PairDicts.RemoveIsDrop` | crates/rqx-core/src/query_params.rs:112-114 | remove is deleting the key from the dict |
| `PairGroups.PushIsAppend` | crates/rqx-core/src/query_params.rs:46-51 | push appends to its key's list, or starts one at the end |
| `PairGroups.GroupedPush` | crates/rqx-core/src/query_params.rs:46-51 | push keeps equal keys together |
| `PairGroups.GroupedMerge` | crates/rqx-core/src/query_params.rs:117-141 | merge keeps equal keys together |
| `PairGroups.GroupedIffWrittenOut` | crates/rqx-core/src/query_params.rs:44-45 | a list is grouped if and only if it is its dict written out |
| `PairGroups.PushAllRegroups` | crates/rqx-core/src/query_params.rs:36-42 | pushing any pairs one by one gives their dict written out, and changes nothing exactly on grouped lists |
| `PairGroups.MergeIdempotent` | crates/rqx-core/src/query_params.rs:117-141 | merging a list with itself changes nothing if and only if it is grouped |
| `PairGroups.SetIsPut` | crates/rqx-core/src/query_params.rs:89-104 | merging one pair in is setting that key to that one value |
| `PairGroups.QueryRoundTrip` | crates/rqx-core/src/query_params.rs:36-51 | writing a list out and parsing it gives it back if and only if it is grouped, and its dict written out in any case |
| `QueryParams.QueryPairs.Push` | crates/rqx-core/src/query_params.rs:46-51 | the insertion in place, its effect on the dict, and that grouping is kept |
| `QueryParams.QueryPairs.ParseQuery` | crates/rqx-core/src/query_params.rs:36-42 | a parsed list is grouped, stands for the dict of the decoded pairs, and restores any grouped list that was written |
| `QueryParams.QueryPairs.FromItems` | crates/rqx-core/src/query_params.rs:151-159 | a list built from items is grouped and stands for the dict of their pairs |
| `QueryParams.EveryValueShows` | crates/rqx-core/src/query_params.rs:151-166 | the pairs of a list of items are one for each value, item by item, under the key of its item, with the text the value has: base ten for integers, true or false, nothing when it is missing |
| `QueryParams.QueryPairs.KeyOrder` | crates/rqx-core/src/query_params.rs:72-80 | the keys in order of first appearance |
| `QueryParams.QueryPairs.Set` | crates/rqx-core/src/query_params.rs:89-104 | the loop is a merge with one pair and sets that key in the dict |
| `QueryParams.QueryPairs.Add` | crates/rqx-core/src/query_params.rs:106-110 | a pushed copy; the original is unchanged |
| `QueryParams.QueryPairs.Remove` | crates/rqx-core/src/query_params.rs:112-114 | the pairs of the other keys, in order; the key is gone from the dict |
| `QueryParams.QueryPairs.Merge` | crates/rqx-core/src/query_params.rs:117-141 | the two loops compute the merge the laws are about, and keep grouping |
| `QueryParams.QueryPairs.Display` | crates/rqx-core/src/query_params.rs:169-177 | the written text; parsed, it gives a grouped list back |
| `Retrying.RetryCounts.Record` | crates/rqx-core/src/retry.rs:42-49 | exactly one kind and the total go up by one |
| `Retrying.AllowsAnother` | crates/rqx-core/src/retry.rs:107-116 | another attempt is allowed exactly while total and kind are below their caps |
| `Retrying.EarlierAddsUp` | crates/rqx-core/src/retry.rs:42-49 | connect, read and status failures always add up to the total |
| `Retrying.RunIsExact` | crates/rqx-core/src/transport.rs:204-305 | the run ends at the first stopping attempt unless the time budget ends it earlier, and its result is that attempt's |
| `RetryPromises.SendKeepsPromise` | crates/rqx-core/src/transport.rs:191-325 | from the trace alone, for every policy: no attempt out of time or behind the first that is wanted or finds its kind or the total used up; the result is a reply exactly when the last attempt was answered and its status is not both listed and raised on, and then that very reply with one history entry for each retry; otherwise the error with the connect, read and status failures counted; without retries the reply or message of the only attempt |
| `Retrying.ExactAttempts` | crates/rqx-core/src/transport.rs:210-305 | within the time budget a replayable request makes exactly n + 1 attempts, n the first index that is final or finds a cap used up; negative caps allow one |
| `Retrying.RunTelemetry` | crates/rqx-core/src/transport.rs:266-324 | a returned response reports as many retries as its history lists, one fewer than the attempts |
| `Retrying.BackoffBounded` | crates/rqx-core/src/transport.rs:220-248 | with non-negative factor and maximum every sleep lies between zero and the maximum |
| `RetryPromises.SleepIsAsked` | crates/rqx-core/src/transport.rs:220-248 | the sleep before an attempt is the longer of the computed backoff and what the previous response asked for, up to the maximum; a header that is no number, or that the policy disregards, asks for nothing, an infinite one for the maximum |
| `Retrying.BackoffBefore` | crates/rqx-core/src/transport.rs:220-245 | the computed sleep is the backoff of that attempt |
| `Retrying.JitterBounded` | crates/rqx-core/src/transport.rs:240-244 | jitter moves a backoff by at most its share and never below zero |
| `Retrying.JitterSpreads` | crates/rqx-core/src/transport.rs:240-244 | and spreads it evenly: a draw of zero changes nothing, above zero two sleeps differ by the difference of their draws times the share, and the lowest draw takes the whole share off |
| `Retrying.TotalBackoff` | crates/rqx-core/src/transport.rs:236-247 | without jitter and Retry-After, n sleeps total at most n times the maximum and at most factor times 2^n - 1, exactly the latter while the cap is not reached |
| `Retrying.Attempt` | crates/rqx-core/src/transport.rs:258-299 | an attempt ends the run exactly when no retry is wanted or the response is final, with that ending, and otherwise leaves its telemetry |
| `Retrying.CountFailure` | crates/rqx-core/src/transport.rs:301-304 | another attempt follows exactly while both caps allow it, and then the failure is counted |
| `Retrying.GiveUp` | crates/rqx-core/src/transport.rs:307-324 | behind the loop the result is the ending of the last attempt |
| `Retrying.SendWithRetries` | crates/rqx-core/src/transport.rs:191-325 | the loop makes that run and those sleeps; no counter overflows |
| `Redirecting.KeepsExactly` | crates/rqx-core/src/redirect.rs:54-61 | the header is kept exactly towards the same origin or its upgrade to https |
| `Redirecting.RedirectedRequest` | crates/rqx-core/src/redirect.rs:69-90 | the edits in place give the redirected request |
| `Redirecting.OtherHeadersPass` | crates/rqx-core/src/redirect.rs:69-90 | every header a redirect has no business with passes unchanged |
| `Redirecting.OneHop` | crates/rqx-core/src/redirect.rs:81-85 | Authorization stays exactly where it may, with its value, and Cookie is gone |
| `Redirecting.CarriedIffHome` | crates/rqx-core/src/redirect.rs:54-90 | a hop carries Authorization if and only if the first did and no step so far left home |
| `Redirecting.AuthorizationStaysHome` | crates/rqx-core/src/redirect.rs:54-90 | a hop that carries it has the original value, every hop up to it is at the original origin or its upgrade, and the upgrade is never left |
| `Redirecting.NoCookieAfterFirst` | crates/rqx-core/src/redirect.rs:81 | no hop after the first carries a hand-set Cookie |
| `Redirecting.DowngradeIsPermanent` | crates/rqx-core/src/redirect.rs:74-80 | every hop has method, body and content headers as built, or is a GET without body and content headers, and once that it stays that |
| `Redirecting.MethodOverChain` | crates/rqx-core/src/redirect.rs:46-90 | method, body and content headers of any hop, told from the first request and the statuses alone: a GET keeps its body through every redirect, HEAD stays HEAD, any other method is a bare GET behind its first 302 or 303, POST behind a 301 too, and unchanged until then |
| `Following.FollowSendsChain` | crates/rqx-core/src/client.rs:247-290 | whatever is sent is a chain of redirected requests beginning with the one built |
| `Following.DeliveredAsPromised` | crates/rqx-core/src/transport.rs:160-166 | one send: a single attempt and its outcome without a policy; with one, all that a retried send promises for the method and the body of the request |
| `Following.ChaseIsSafe` | crates/rqx-core/src/client.rs:240-291 | the credential, cookie and downgrade results hold of every call of the client |
| `Following.ChaseMethod` | crates/rqx-core/src/client.rs:247-290 | the same of every request one call sends, from the statuses of the responses it met |
| `Following.FollowIsLinked` | crates/rqx-core/src/client.rs:251-289 | every hop is what its request was answered with on its own trace, and each request is the redirect of the one before it to the joined Location |
| `Following.FollowEnds` | crates/rqx-core/src/client.rs:248-287 | nothing is sent exactly when the request cannot be cloned; a failed send is the last and its failure the result; behind an answered last send, a response that is no redirect is returned, one at the limit is returned or raised as the policy says, any other had no usable location |
| `Following.FollowBounds` | crates/rqx-core/src/client.rs:244-290 | at most max(1, max_redirects) sends, and at most that times 1 + max(0, total) attempts |
| `Following.FollowTelemetry` | crates/rqx-core/src/client.rs:251-257 | a returned response sums the retries of all hops and lists their histories in order, in equal numbers |
| `Following.FollowFillsJar` | crates/rqx-core/src/client.rs:221-260 | a name is in the jar behind any chain if and only if it was there before or some response with a status from 300 to 399 set it; its value is what the last of those set, else the old one |
| `Following.Client.AccumulateCookies` | crates/rqx-core/src/client.rs:221-229 | the jar is overlaid with the response cookies |
| `Following.Client.TransportSend` | crates/rqx-core/src/transport.rs:160-166 | one attempt without a retry policy, the retry run with one |
| `Following.Client.NextHop` | crates/rqx-core/src/client.rs:256-288 | behind a hop: the next request exactly when the chain goes on, else what it stops with |
| `Following.Client.FollowRedirects` | crates/rqx-core/src/client.rs:240-291 | the loop gives exactly that chain and leaves its jar |
| `Following.Client.Send` | crates/rqx-core/src/client.rs:202-216 | follows when asked, then adds the final response's cookies, and only on success |

## Left out

- Reqwest, hyper, tokio, TLS, proxies, connection pool, semaphore and decompression: the network is a trace of outcomes or a list of chunks.
- `TextDecoder` and charset detection: iterators over text and lines take the decoded chunks, and the text the decoder flushes at the end, as parameters.
- The async iterators of stream.rs:200-340: their loops are those of the sync ones, statement by statement; the task scheduling around them is not modelled beyond the LiveStream protocol.
- NetworkSource.Source.NextChunk: one caller's view, in which a close is seen at a look or not at all; what happens inside the lock and the select is LiveStreamProtocol, which is proved to keep this view's contract.
- Concurrent `__next__` calls on one iterator: PyO3's borrow check and the async state lock exclude them.
- RuntimeSlot.NoRuntimeOutlivesShutdown: atomics are sequentially consistent; weak memory orders, `SHUTDOWN_GRACE`, poisoned mutexes and the thread-local handed to the async bridge are not modelled.
- RuntimeSlot.HandlesAgree: concerns calls that return before `closed` is set; a caller racing shutdown may briefly get a slot about to be retracted.
- LiveStreamProtocol.CloserGetsIn: counts accesses; that threads are scheduled at all is the runtime's part, and that the lock serves its queue in order is what tokio's mutex documents. `is_closed` is left out.
- StreamBody.HandedOutOnce: response properties, caches and content decoding are left out; the getters read the slot and nothing else.
- JsonEncoding.EncodeObject: subclasses that override `__str__`, dicts changed while they are walked, and Python's limit on the digits of an integer turned into text are not modelled; the positions serde_json reports in errors neither.
- JsonEncoding.KeysAreSpelledAsValues: a float's text is a field of the model's float, since Python's and Rust's float formatting are not part of this model.
- JsonDecoding.ValueToPy: the arm for a number that is neither integer nor float cannot be reached with serde_json's default number type and has no counterpart.
- Retrying.SendWithRetries: times, factors and sleeps are exact reals, not `f32` and `f64`; a negative `backoff_max`, with which the sleep call panics, gives a negative sleep here; elapsed times are inputs.
- Retrying.ExactAttempts: the defaults `Retry::new` fills in are plumbing and left out.
- Following.FollowTelemetry: sums are unbounded; the `u32` they are kept in would need four billion retries to wrap around.
- Following.Client.FollowRedirects: URL joining is a parameter that may fail; draining a 3xx body and elapsed time are left out.
- Redirecting.KeepsExactly: origins are those of schemes with a default port; `blob:` origins, which the url crate takes from the inner URL, are not modelled, and URLs are scheme, host, port and path.
- QueryParams.QueryPairs.ParseQuery: the codec is that of the WHATWG URL Standard, which the original calls in the form_urlencoded crate.
- `first_items`, `get`, `contains`, equality and hashing of QueryPairs: one expression each over what is modelled.
- URL composition, `Headers`, `Auth`, `Timeout`, status predicates, exception classes and the Python argument layer: easy members or calls into other crates.
