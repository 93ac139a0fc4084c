# A model of the PTY core of winpty-rs

These modules model the part of winpty-rs in which threads, foreign calls and byte streams meet:
`PTYProcess` (`src/pty/base.rs`), the ownership of the pseudoconsole by `ConPTY`
(`src/pty/conpty/pty_impl.rs`), and `WinPTY` as the synchronous instance of `PTYProcess`
(`src/pty/winpty/pty_impl.rs`). Dafny proves every statement below for all inputs and all runs. Nothing was executed.

## The parts

| module | what it is about |
|---|---|
| `Sequences` | facts about concatenation |
| `Unicode` | UTF-16 (sections 2.1 and 2.2 of RFC 2781) and UTF-8 (sections 3 and 4 of RFC 3629), both directions |
| `ReadPath` | one read: zeroed buffer, conversion of the whole buffer, NUL removal; and the texts of successive reads |
| `WritePath` | one call of `write`: the two passes of the encoder, chunks, the deferred write carried from call to call |
| `Delivery` | what arrives in the pipe from a call |
| `WriteCounts` | the number a call returns, in bytes and in characters, and the ledger over sequences of calls |
| `SharedWriter` | concurrent callers of `write`, and what arrives in the pipe from them |
| `Linearisation` | concurrent calls do what sequential calls do |
| `RoundTrip` | reading back what was written |
| `WriteWitnesses` | calls whose count or success is not what it seems |
| `Channels` | the unbounded FIFO channels |
| `Protocol` | owner, reader, watcher and cleanup thread as a transition system |
| `Invariant`, `Contents` | what every reachable state satisfies: control, and the contents of the output |
| `Safety` | what holds in every run |
| `ReadCalls` | what calls of `PTYProcess::read` return |
| `SynchronousEnd` | how a synchronous reader ends on its own, and what it leaves behind |
| `OverlappedEnd` | how an overlapped reader ends, and when that is the end of the output |
| `EofProbe` | `is_eof` as four separate looks at a running system |
| `Teardown` | a measure for teardown, a bound on its steps, and a way to its end |
| `ChannelEnds` | who holds the ends of the channels, and that all are dropped in the end |
| `ChildExit` | what the child's end sets in motion, up to the close of the pseudoconsole |
| `Witnesses` | runs that lose or spoil output, and a cleanup without a drop |

`Protocol` has one program counter per thread. Each value of a counter is one statement of the source (its
comment names the line) and each step is one atomic action, so `Run` ranges over all interleavings. Foreign
calls are answered by the environment: `PeekAnswer`, `AliveAnswer`, `ReadAnswer` and `ChildWaitReturns`
are its answers, `WatcherTimesOut` and `OwnerTimesOut` let any timed wait time out, and `Feed`, `Break`
and `ChildExits` are outside events. `Mode` selects the instance: `Sync` has two files, no watcher and
closes the process handle in `PTYProcess::drop`; `Async` has one overlapped pipe, a watcher and a cleanup thread.
`write` and the free function `read` are methods over fields and arrays, proved against functions about
which the lemmas speak. The answer to a `WriteFile` says how many bytes get through. For a deferred write
this is settled when the write is issued and seen by the code only when it is harvested; `delivered` grows
when a write has ended, and `Stream` is what has arrived when nothing is in flight.

How many bytes of an ill-formed fragment share one replacement character is left to the converter:
`Unicode.REPLACING` is a constant without a value, of which only its type is known (at least one byte, at most
the fragment), so every statement holds for every such choice.

## Assumptions

- `CreateEventExW` succeeds, and `spawn` succeeds at most once on a PTY.
- A cancelled pending read completes with an error. It may also fail without having been cancelled.
- A read that completes with zero bytes has met the end of a closed, drained pipe, and a completed read
  takes a nonempty prefix of what the pipe holds, of at most the size of the buffer.
- A successful peek or process query tells the truth about the moment it is made.
- A wait for the child returns early only when its handle has been closed (`ConPTY::drop` may do that).
- The child ends once its pseudoconsole is closed. Only the progress lemmas of `Teardown` use this.
- The operating system never reports more bytes than were in flight. A wait for a deferred write that fails
  means that this write is over.
- A peek at a drained pipe whose write end is closed fails (only the lemmas of `EofProbe` use this).

## Where code and documentation differ

- The documentation of `write` (`src/pty/base.rs:685-687`) promises the number of characters written. A
  synchronous call counts the bytes that were written; when they are all written this is the number of
  characters exactly for ASCII texts (`WriteCounts.SynchronousCountsCharacters`, `WriteWitnesses.AccentCountsTwice`).
  An overlapped call counts the write it found outstanding and those of its own deferred chunks but the last:
  `WriteCounts.OverlappedCounts`, from any state. It is the number of bytes exactly when the carried-over write makes up
  for the last chunk and what is never reported (`WriteCounts.OverlappedCountIsLength`), and the number of units exactly
  when it does so together with the surplus of bytes over units (`WriteCounts.OverlappedCountsCharacters`). In closed form
  it is at most the carried-over report and the full chunks before the last (`WriteCounts.OverlappedClosedForm`). A call of
  one chunk returns the report of the write before it (`WriteCounts.OneChunkCountsCarried`, `WriteWitnesses.SecondCallCountsFirst`);
  a longer one can be right by accident (`WriteWitnesses.RightByAccident`).
- A successful call need not be delivered: a short write is not repeated, and a deferred write may fail after its
  call returned. `Delivery.DeliveredWhole` is the exact condition, `WriteWitnesses.ShortWriteIsLost` and
  `WriteWitnesses.DeferredWriteIsLost` are the two failures.
- Each read is decoded on its own. A read that begins in the middle of a character spoils it:
  `ReadPath.ReadsMakeUpStream` is an equivalence, `Witnesses.SplitCharacterIsSpoilt` a run in which all bytes are
  delivered and the text is still not theirs.
- An empty string is not the end of the output: a read of NULs sends one, and the reader goes on
  (`Safety.EmptyItems`, `Witnesses.NulReadLooksLikeEnd`).
- A comment on the watcher (`src/pty/base.rs:620-622`) says that the reader has drained before cleanup is signalled.
  What holds is that its terminating item is sent (`Safety.CleanupWaitsForReader`). Without a time-out of the watcher's
  wait, a cancel by the drop, or a read that fails of itself, it has drained
  (`OverlappedEnd.UndisturbedEndIsComplete`, `OverlappedEnd.UndisturbedCleanupTruncatesNothing`). In general it has exactly if
  its last read left the pipe empty and nothing arrived after it (`OverlappedEnd.EndIsCompleteUpToLastRead`).
  `Witnesses.FallbackLeavesByte` is a run in which the fallback cancel and the close leave a byte behind;
  `Witnesses.ErrorAfterEverything` one in which the error came after everything was delivered.
- A synchronous reader takes a dead child and an empty pipe for the end of the output, and so it does any failure of
  the two queries (`src/pty/base.rs:378-391`). What is in the pipe when it last peeks, or arrives later, is not delivered:
  `SynchronousEnd.EofIsCompleteUpToPeek` says for every run when the output is complete, and
  `SynchronousEnd.EofOfSuccessfulCalls` that without a failed query the child has ended and only what arrived after the
  peek is left. `Witnesses.LateByteIsLost` is a run in which a byte arrives between the two queries, and
  `Witnesses.FailedPeekLeavesByte` one in which a peek fails although the child lives and a byte is waiting.

## Model

| member | source | states |
|---|---|---|
| Unicode.RepairIsIdentityOnWellFormed | src/pty/base.rs:690-713 | replacing unpaired surrogates keeps the length and the NULs of a text, and changes nothing if and only if the text is well-formed UTF-16 |
| Unicode.BytesOfInvertsScalars8 | src/pty/base.rs:293-300 | a byte string is the encoding of the characters it decodes to if and only if it is well-formed UTF-8: shortest forms, no surrogates, no missing continuation |
| Unicode.Scalars8InvertsBytesOf | src/pty/base.rs:293-300 | decoding gives back any sequence of characters from its encoding, and encodings are well formed |
| Unicode.DecodeInvertsEncode | src/pty/base.rs:689-713 | the two conversions compose to the identity on a text if and only if it is well-formed UTF-16 |
| Unicode.UnitsTable | src/pty/base.rs:689-690 | a character is one unit, or a high and a low surrogate with ten bits each of it less 0x10000 |
| Unicode.UnpairedTable | src/pty/base.rs:693-713 | a surrogate without its partner becomes U+FFFD, any other unit is kept |
| Unicode.BytesTable | src/pty/base.rs:693-713 | the length, the lead byte, the continuation bytes and the value of the encoding of every character, by the table of RFC 3629 |
| Unicode.EncodingSize | src/pty/base.rs:693-704 | an encoding has at least one and at most three bytes for each unit of the text |
| ReadPath.SplitFoldStrips | src/pty/base.rs:302-310 | splitting at zeros, copying and folding with append removes the zeros and nothing else |
| ReadPath.DecodePadded | src/pty/base.rs:221-222 | the zero tail of the buffer neither completes nor spoils the last character: it decodes to as many zeros after the decoded data |
| ReadPath.BufferYieldsText | src/pty/base.rs:291-311 | for every amount of data up to 32768 bytes, the decoded buffer fits the 32768 units reserved for it, and its units without zeros are the text of the data |
| ReadPath.ReadStream | src/pty/base.rs:221-313 | the buffer-based read returns the text of the bytes delivered, an error for a failed, refused or failed deferred read, and "no more" exactly for an overlapped read of zero bytes |
| ReadPath.CutReads | src/pty/base.rs:485-487 | reads of well-formed bytes of which one begins inside a character yield more replacement characters than the stream's text has, whatever the converter's grouping |
| ReadPath.IllFormedShows | src/pty/base.rs:293-300 | the text of bytes that start with no well-formed character begins with U+FFFD |
| ReadPath.UnreplacedIsWellFormed | src/pty/base.rs:293-300 | a text without replacement characters comes from well-formed bytes |
| ReadPath.EmptyTextIsNuls | src/pty/base.rs:302-312 | a read yields the empty text if and only if it held nothing but NULs |
| ReadPath.CutSeenFromNextByte | src/pty/base.rs:485-487 | in well-formed bytes a cut is inside a character if and only if the next byte is a continuation byte |
| ReadPath.ReadsMakeUpStream | src/pty/base.rs:293-313 | for well-formed bytes and any segmentation into reads, the texts of the reads make up the text of the stream if and only if no read begins inside a character, whatever the converter's grouping of ill-formed bytes |
| WritePath.ChunksMakeUp | src/pty/base.rs:724 | the chunks are nonempty, at most 8192 bytes long, and together the buffer |
| WritePath.ChunkAt | src/pty/base.rs:724 | the i-th chunk begins at 8192 times i and is full unless it is the last |
| WritePath.WireBytesTable | src/pty/base.rs:693-713 | the bytes of every text of up to 715827882 units, and of any text with less than 2 ^ 31 of them, are written; of any other text none |
| WritePath.RequiredSize | src/pty/base.rs:693-700 | the sizing pass finds the length of the encoding, or 0 if that is 2 ^ 31 or more |
| WritePath.FillBuffer | src/pty/base.rs:706-713 | the filling pass puts the encoding into a buffer of exactly that length |
| WritePath.EncodedBuffer | src/pty/base.rs:690-713 | the buffer is well-formed UTF-8 that decodes to the text with unpaired surrogates replaced; up to 715827882 units it is the whole encoding and empty only for the empty text; it is empty otherwise only for an encoding of 2 ^ 31 bytes or more |
| WritePath.PtyWriter.constructor | src/pty/base.rs:529-530 | a new writer has nothing outstanding and its flag is clear |
| WritePath.PtyWriter.WriteChunk | src/pty/base.rs:725-788 | one turn of the loop agrees with its specification, keeps the flag and the outstanding write in step, and adds at most 8192 |
| WritePath.PtyWriter.WriteBytes | src/pty/base.rs:715-790 | the loop over chunks agrees with its specification, and its running total never overflows a `u32` |
| WritePath.PtyWriter.Write | src/pty/base.rs:688-792 | a whole call: encode, then the loop, from any consistent state to a consistent state, success or error |
| WritePath.ChunkKeepsConsistent | src/pty/base.rs:726-768 | a turn keeps: flag set if and only if one deferred write is unharvested, never two, and every deferred byte is completed, failed or in flight |
| WritePath.WriteKeepsConsistent | src/pty/base.rs:720-790 | the same of a whole call that may fail at any chunk |
| Delivery.ChunkArrives | src/pty/base.rs:725-788 | a turn adds to what arrives the bytes of its chunk that get through, and nothing if the harvest before it fails |
| Delivery.ArrivedInFull | src/pty/base.rs:745-787 | what arrives of the chunks given is all of them if and only if none was cut short |
| Delivery.TurnStops | src/pty/base.rs:726-787 | a turn is issued if and only if the wait before it does not fail, and goes well if and only if its write does not fail either |
| Delivery.WriteArrives | src/pty/base.rs:724-790 | a call gives its chunks in order up to the first failure and no further; what arrives is what gets through of the chunks given; it succeeds if and only if no wait and no write of it fails |
| Delivery.OverlappedSucceeds | src/pty/base.rs:726-768 | an overlapped call succeeds if and only if its text is empty, or the carried-over write completes, no chunk is refused and every deferred chunk before the last completes |
| Delivery.DeliveredWhole | src/pty/base.rs:724-790 | a successful call is delivered whole if and only if each answer lets through its whole chunk, for written and for deferred chunks, the last included |
| WriteCounts.SynchronousCounts | src/pty/base.rs:770-790 | a synchronous call succeeds if and only if every chunk was written; it returns the sum of the reports, which is the number of bytes delivered, and the encoded length if and only if no chunk was cut short |
| WriteCounts.SynchronousCountsCharacters | src/pty/base.rs:685-790 | when all bytes were written the count is the documented number of characters, in units or in code points, if and only if the text is ASCII and can be sized |
| WriteCounts.BytesPerUnit | src/pty/base.rs:689-713 | an encoding is as long as its text if and only if the text is ASCII |
| WriteCounts.OverlappedCounts | src/pty/base.rs:726-768 | from any state, a successful overlapped call counts the carried-over write and its own deferred chunks but the last |
| WriteCounts.OverlappedCountIsLength | src/pty/base.rs:726-768 | this is its encoded length if and only if the carried-over write makes up for the last chunk and all unreported bytes before; never so, but for the empty text, when nothing was carried over |
| WriteCounts.OverlappedClosedForm | src/pty/base.rs:724-768 | the count is at most the carried-over report and all full chunks before the last, and this sum if and only if those chunks are deferred and complete in full |
| WriteCounts.OverlappedCountsCharacters | src/pty/base.rs:685-768 | from any state the count of a sizable text is its number of units if and only if the carried-over report and the surplus of bytes over units make up for the last chunk and all unreported bytes before; an ASCII text with nothing carried over is counted right only if it is empty |
| WriteCounts.OneChunkCountsCarried | src/pty/base.rs:726-768 | a successful overlapped call of one chunk returns the report of the write before it: right if and only if a write was pending whose report is the promised length |
| WriteCounts.OverlappedAccounts | src/pty/base.rs:725-768 | a call's total is what its harvests report, at most what completed; what it defers is at most its own bytes; only a failing call finds a write failed |
| WriteCounts.OverlappedBound | src/pty/base.rs:724-790 | an overlapped call returns at most the bytes carried over plus its own, so at most its length + 8192 |
| WriteCounts.CallsKeepBalance | src/pty/base.rs:715-790 | over any sequence of calls the harvested bytes are those returned by successful calls plus those lost inside failing ones |
| WriteCounts.OverlappedLedger | src/pty/base.rs:715-790 | after any calls from a new pipe, every deferred byte was returned, lost in a failing call, left out of a report, found failed, or is the one chunk in flight |
| WriteWitnesses.AccentCountsTwice | src/pty/base.rs:685-790 | a synchronous call of one character that counts two |
| WriteWitnesses.ShortWriteIsLost | src/pty/base.rs:770-790 | a synchronous call that succeeds while nothing arrives |
| WriteWitnesses.DeferredWriteIsLost | src/pty/base.rs:747-768 | an overlapped call that succeeds, after which its write fails and nothing arrives |
| WriteWitnesses.SecondCallCountsFirst | src/pty/base.rs:726-768 | an overlapped call that counts nothing, and the next, which counts it |
| WriteWitnesses.RightByAccident | src/pty/base.rs:726-768 | an overlapped call of 8192 two-byte characters that counts half its bytes, as many as it has characters |
| SharedWriter.CallsAreKept | src/pty/base.rs:688-721 | in every run the calls that wait, hold the mutex or have returned are those that began, each with its text, none lost and none twice |
| SharedWriter.StepKeepsSerialised | src/pty/base.rs:720-790 | every step of every caller keeps what arrives a concatenation of the calls' contributions in lock order |
| SharedWriter.WritesAreSerialised | src/pty/base.rs:720-790 | for any number of callers and any interleaving, what arrives is, in lock order and never interleaved, what gets through of each call's leading chunks, of all its chunks if it succeeded; which chunks a failed call gives is the sequential call's |
| SharedWriter.EncodingsArrive | src/pty/base.rs:720-790 | what arrives from a log of calls is their whole encodings if and only if no chunk of any of them was left out or cut short |
| SharedWriter.WholeLogIsDelivered | src/pty/base.rs:720-790 | so it is in every run whenever nobody holds the mutex, whether or not the calls reported success |
| Linearisation.TurnKeepsUnderway | src/pty/base.rs:724-789 | a turn of a concurrent call is a turn of the sequential call from the writer it found, and an error ends it |
| Linearisation.CallsAreSequential | src/pty/base.rs:720-790 | in every run each returned call has left the writer, the count and the verdict of the sequential call on what the call before it left, and made no turn after a failed one |
| Linearisation.RunsLinearise | src/pty/base.rs:720-790 | whenever nobody holds the mutex, a run has done what its calls do one after the other in lock order: same writer, same sums of counts |
| Linearisation.ConcurrentLedger | src/pty/base.rs:720-790 | the ledger of deferred bytes holds for concurrent calls too |
| RoundTrip.TextOfEncoding | src/pty/base.rs:291-311 | a text survives encoding, decoding and NUL removal if and only if it is well formed and free of NULs |
| RoundTrip.WriteThenRead | src/pty/base.rs:689-724 | under any segmentation into reads that begin on character boundaries an encoded text comes back if and only if it is well formed, free of NULs and short enough to be sized |
| RoundTrip.EncodingsOfTransparent | src/pty/base.rs:689-713 | the encodings of texts that survive on their own make up a well-formed stream without NULs whose text is the texts in order |
| RoundTrip.ReadsDetermineStream | src/pty/base.rs:293-311 | reads that yield a text without replacement characters have received exactly its encoding, cut on character boundaries |
| RoundTrip.ConcurrentWritesReadBack | src/pty/base.rs:688-792 | after concurrent calls in which no chunk was cut short, the text read back is the texts in lock order if and only if no read begins inside a character; if the texts hold no replacement character, if and only if this is so and no chunk was cut short |
| Invariant.InitControl | src/pty/base.rs:444-650 | a new PTY satisfies the control invariant in both modes |
| Invariant.ReaderKeepsControl | src/pty/base.rs:475-511 | every action of either reader keeps it: flags, event and channel ends follow its progress |
| Invariant.LinkNextKeepsHandshakes | src/pty/base.rs:553-583 | the reader takes one handshake and enters its loop only with the process |
| Invariant.LinkNextKeepsStops | src/pty/base.rs:478-500 | once the drop has sent a stop, a polling synchronous reader always has one ahead of it |
| Invariant.HandshakesSurvive | src/pty/base.rs:911-940 | statements of the owner that send no handshake keep what was decided by it |
| Invariant.SetProcessKeepsHandshakes | src/pty/base.rs:859-878 | the process is sent ahead of any `None`, to a reader still waiting for it |
| Invariant.OwnerKeepsOwnership | src/pty/conpty/pty_impl.rs:674-698 | spawn and drop keep the mutex exclusive and the count of closes equal to the state of the open flag |
| Invariant.OwnerKeepsHandles | src/pty/base.rs:942-960 | each statement of the owner keeps the handle ledger in step with its progress |
| Invariant.OwnerKeepsConsole | src/pty/conpty/pty_impl.rs:551-607 | spawn and drop keep the release channel and the ownership of the pseudoconsole in order |
| Invariant.WatcherKeepsWatch | src/pty/base.rs:600-629 | the watcher hears of the process once and sends `true` only after the child wait and the exit event |
| Invariant.CleanerKeepsControl | src/pty/conpty/pty_impl.rs:433-456 | the cleanup thread acts on the first message only, under the mutex, and closes only what is open |
| Invariant.StepKeepsControl | src/pty/base.rs:444-962 | every step of every thread and of the environment keeps the control invariant |
| Contents.ReaderKeepsContents | src/pty/base.rs:475-510 | every action of a reader keeps conservation of bytes and items, and that the items are those of the reads, one by one |
| Contents.TakenKeepsBytes | src/pty/base.rs:228-247 | a completed read moves bytes from the pipe to the reader and loses none |
| Contents.ReceiveKeepsContents | src/pty/base.rs:664-678 | a receive takes the oldest item: what was sent stays what was received followed by what is queued |
| Contents.StepKeepsInv | src/pty/base.rs:444-962 | every step keeps the whole invariant, control and contents |
| Contents.InvHolds | src/pty/base.rs:444-962 | the invariant holds in every state of every run |
| Contents.ReaderOutputAlive | src/pty/base.rs:938-940 | the receiver of the output outlives the reader, because the drop joins it first |
| Safety.SendsAreUnwrapped | src/pty/base.rs:484-497 | the reader's sends of results, and the sends of a process and of its release, fail exactly when the receiver is gone |
| Safety.NoPanics | src/pty/base.rs:484-497 | in no run does one of these sends fail: whenever one is due its receiver is there |
| Safety.HandshakeDecidedBySpawn | src/pty/base.rs:859-916 | at most one handshake is taken, it is the process if and only if one was set, and the drop passes its first loop only after it |
| Safety.CleanupWaitsForReader | src/pty/conpty/pty_impl.rs:433-456 | whenever the cleanup thread closed the pseudoconsole, the child had ended, the child wait had returned, the exit event was set, and the reader's one terminating item was already sent; what was ever put in the pipe is delivered, but for what is in the pipe |
| Safety.OutputGrammar | src/pty/base.rs:568-587 | sent = received + queued in order, and the items sent are the results of the reads one by one; an overlapped run's reads get bytes until exactly one, the last, does not; a synchronous run has at most one `None`, always last |
| Safety.EmptyItems | src/pty/base.rs:572-576 | an item of an overlapped run that is not the terminator is the text of a read, empty if and only if that read held nothing but NULs |
| Safety.EndedLeavesPipe | src/pty/base.rs:571-588 | when an overlapped reader has ended there is one terminating item, and what was put in the pipe is what was delivered followed by what is in the pipe: nothing after an end by zero bytes |
| Safety.NaturalEndIsComplete | src/pty/base.rs:280-283 | an overlapped reader that ended with zero bytes has delivered every byte ever put in the pipe; the items' text is the text of the stream if and only if no read began inside a character |
| Safety.ConsoleClosedOnce | src/pty/conpty/pty_impl.rs:674-692 | every spawn finds the pseudoconsole open; it is closed exactly once by the time `ConPTY::drop` is through, whoever closes it |
| Safety.ConsoleNeverClosedAgain | src/pty/conpty/pty_impl.rs:438-448 | the number of closes only grows and never passes one |
| Safety.NeverSpawned | src/pty/base.rs:588-601 | without a spawn the reader leaves without reading, the watcher without waiting or telling, and the cleanup thread closes nothing |
| Safety.HandlesClosedInTime | src/pty/base.rs:926-960 | no handle is closed twice, no stream while the reader may touch it, and the exit event only after both threads that use it have ended |
| Safety.HandlesAllClosed | src/pty/conpty/pty_impl.rs:679-685 | at the end every valid handle of either kind of PTY has been closed exactly once, the shared pipe as one |
| Safety.StopBound | src/pty/base.rs:923-935 | after the first stop a synchronous reader begins at most one more read, and none if it is between reads, in every interleaving |
| ReadCalls.CallsAnswer | src/pty/base.rs:664-678 | on any channel the i-th call answers with the i-th item, a text as it is, an error and `None` as an error; without an item a call returns the empty text, but for a blocking call while there is a sender, which hangs |
| ReadCalls.CallsReturnTexts | src/pty/base.rs:664-678 | the texts returned are, in order, those of the items taken |
| ReadCalls.ReaderGoneReadsDrain | src/pty/base.rs:594-597 | in any run, from the moment the reader has dropped its end no call hangs: blocking and non-blocking calls alike answer with the queue in order and then with the empty text |
| ReadCalls.ReadsReturnEverything | src/pty/base.rs:664-678 | in any run, what was received and what enough further calls return is the text of all reads |
| SynchronousEnd.QueriesDecide | src/pty/base.rs:378-391 | a failed peek and a failed query are end-of-file; a successful peek leads to the query; an answer that the child lives, or bytes seen by the peek, lead to the next read, and otherwise an ended child is end-of-file |
| SynchronousEnd.ReaderEndsOnlyForCause | src/pty/base.rs:478-500 | a synchronous reader goes on through errors and empty reads: one that has ended has said end-of-file or was sent a stop |
| SynchronousEnd.StepConcludes | src/pty/base.rs:373-393 | only a peek begins a conclusion and nothing is delivered during one; a verdict of end-of-file is a failed peek, a failed query, or an ended child after a peek that saw nothing |
| SynchronousEnd.LastPeek | src/pty/base.rs:484-498 | in every run a reader that concludes has last peeked at some step and read nothing since, and its verdict follows from that peek and the query after it |
| SynchronousEnd.EofIsCompleteUpToPeek | src/pty/base.rs:373-393 | in every run with a `None`, failed queries included: what was put in the pipe before the last peek is what is delivered followed by what was in the pipe then; the output is complete if and only if that peek was at an empty pipe and nothing arrived after it |
| SynchronousEnd.EofOfSuccessfulCalls | src/pty/base.rs:381-386 | if no query failed, a `None` means that the child has ended and the last peek was at an empty pipe; the output is complete if and only if nothing arrived after that peek |
| OverlappedEnd.StepEnds | src/pty/base.rs:571-583 | only a read that gets no bytes ends the reading, and after it no read completes |
| OverlappedEnd.EndIsCompleteUpToLastRead | src/pty/base.rs:571-588 | in every run in which the reader has ended, the output is complete if and only if its last read, whose result is the terminating item, found the pipe empty and nothing arrived after it |
| OverlappedEnd.UndisturbedEndIsComplete | src/pty/base.rs:600-619 | if the watcher's wait has not timed out, the drop has not cancelled and reads fail only when cancelled, a reader that has ended has delivered everything ever put in the pipe |
| OverlappedEnd.UndisturbedCleanupTruncatesNothing | src/pty/base.rs:620-625 | then a close by the cleanup thread comes after the child's end and after everything is delivered |
| Witnesses.AnswersAreFree | src/pty/base.rs:228-278 | in any state the calls the reader waits in may fail or answer truthfully, and a read may take any bytes at the front of the pipe up to 32768: no run is left out |
| Witnesses.WaitsAreFree | src/pty/base.rs:602-617 | every timed wait may time out as long as its event is not set |
| Witnesses.EventsAreFree | src/pty/conpty/pty_impl.rs:551-595 | bytes may arrive, the pipe may break and the child may end at any time, and the owner may spawn, in vain or not, and drop whenever it is idle |
| Witnesses.LateByteIsLost | src/pty/base.rs:373-393 | a run in which a byte arrives between the two queries of `is_eof` and is never delivered |
| Witnesses.FailedPeekLeavesByte | src/pty/base.rs:389-391 | a run in which a peek fails, the reader says end-of-file, the child lives and a byte waits in the pipe |
| Witnesses.FallbackLeavesByte | src/pty/base.rs:604-625 | a run in which the fallback cancel ends the reader, the cleanup thread closes the pseudoconsole, and a byte that arrived is not delivered |
| Witnesses.ErrorAfterEverything | src/pty/base.rs:577-580 | a run in which the reader ends with an error after everything is delivered |
| Witnesses.NulReadLooksLikeEnd | src/pty/base.rs:302-312 | a run with an empty item before the last, after which the reader goes on |
| Witnesses.SplitCharacterIsSpoilt | src/pty/base.rs:571-583 | a run that ends with all bytes delivered and a text that is not theirs |
| Witnesses.CleanupCloses | src/pty/conpty/pty_impl.rs:433-456 | a run in which the cleanup thread, not the drop, closes the pseudoconsole |
| EofProbe.VerdictIsExact | src/pty/base.rs:799-830 | a call errs if and only if its query fails, as before a spawn; it says true if and only if the query succeeds, the peek failed, the child had ended, the queue was empty and the flag clear, each at its own look |
| EofProbe.ErrsWithoutSpawn | src/pty/base.rs:819-826 | in any run every call errs whose query comes before a spawn |
| EofProbe.NothingSentAfterFinalStore | src/pty/base.rs:588-597 | nothing is sent after the reader's final store |
| EofProbe.QueueAfterEmptiness | src/pty/base.rs:819-826 | whatever is queued after the emptiness check was sent after it |
| EofProbe.TrueIsFinal | src/pty/base.rs:799-830 | a true answer means the child has ended, the reader is past its final store and sends nothing more, and whatever is still queued was sent after the emptiness check |
| EofProbe.LateCallIsExact | src/pty/base.rs:799-830 | a call that starts after the final store, with the child ended, says true if and only if its peek fails and it finds the queue empty, which it then stays; on a drained broken pipe, if and only if it finds the queue empty |
| EofProbe.TrueStaysTrue | src/pty/base.rs:799-830 | after a true answer with an empty queue every later call that does not err says what its peek says, and so true once the pipe is drained and broken |
| EofProbe.ExitedStays | src/pty/base.rs:315-330 | a child that has ended stays ended |
| EofProbe.AtEndStays | src/pty/base.rs:807-815 | a drained pipe whose write end is closed stays so |
| ChannelEnds.EndsAreHeld | src/pty/base.rs:508-510 | in every run the senders of stops and of messages to the cleanup thread are those of the threads that have not dropped theirs |
| ChannelEnds.EveryEndIsDropped | src/pty/base.rs:594-597 | when the owner and all threads have ended, every end of every channel is dropped |
| ChildExit.FallbackCancels | src/pty/base.rs:611-618 | a read that nobody has cancelled is cancelled by the watcher one time-out later, on its first wait and on every later one |
| ChildExit.SomeoneMoves | src/pty/base.rs:571-629 | once the child has ended and the owner does nothing, a step that counts is at most one time-out away until all threads have ended |
| ChildExit.ChildExitCloses | src/pty/conpty/pty_impl.rs:433-456 | from every state of every run in which the child has ended there is a way without any step of the owner to the end of reader, watcher and cleanup thread, with the pseudoconsole closed once, by the cleanup thread |
| Teardown.CancelHitsPendingRead | src/pty/base.rs:924-933 | after any cancel of the drop or of the watcher no read is pending uncancelled |
| Teardown.MeasureFalls | src/pty/base.rs:910-962 | a measure over bytes left and the phases of all threads falls on every step that is not a resend, a timed-out wait, a cancel that hits no read, arriving bytes or a user's choice |
| Teardown.IdleKeepsMeasure | src/pty/base.rs:911-935 | during the drop of an overlapped PTY, and from the first stop on for a synchronous one, those other steps raise it at most by the weight of the bytes that arrive |
| Teardown.TeardownBound | src/pty/base.rs:911-935 | in any run, from the start of the drop of an overlapped PTY, and from the first stop on for a synchronous one, the number of steps that are not retries is bounded by the measure and the bytes that still arrive |
| Teardown.StuckReadProgress | src/pty/base.rs:921-935 | a read issued between cancel and wait is cancelled by the next retry |
| Teardown.SignalledProgress | src/pty/base.rs:926-935 | once the exit event is set the wait returns, at the latest after the retry under way |
| Teardown.NobodyProgress | src/pty/base.rs:913-916 | after one `None` the reader takes its handshake or has taken it |
| Teardown.WatcherProgress | src/pty/base.rs:950-956 | joining the watcher never blocks for good |
| Teardown.LockProgress | src/pty/conpty/pty_impl.rs:688 | taking the mutex in `ConPTY::drop` never blocks for good |
| Teardown.Progress | src/pty/base.rs:910-962 | from every state of a teardown that is not finished a falling step is at most one retry away: two idle steps and then one that falls |
| Teardown.TeardownCanFinish | src/pty/base.rs:910-962 | from every teardown state of every run there is a way, through due steps only, to the end of all four threads |

## Left out

- The bodies of the Win32 and winpty calls, error texts, and the creation of pipes and consoles: foreign calls, modelled by their answers.
- The thread bodies, `set_process` and the two `drop`s as Dafny loops over fields: they are concurrent, so they are program counters of one transition system. What that does not capture is the memory model below the order of atomic steps.
- ReadPath.ReadStream: the branch of the free function `read` for `blocking == false` is not modelled; no caller uses it. The two ways a deferred read can have ended are one answer.
- WritePath.EncodedBuffer: a text of more units than an `i32` counts is treated like one whose encoding an `i32` cannot size.
- WritePath.PtyWriter.Write: the overlapped structure is the one outstanding write, not memory; the source passes copies of it.
- EofProbe.LateCallIsExact: which error `is_eof` returns when the process cannot be queried is not modelled, only that it does.
- Teardown.TeardownCanFinish: a fair scheduler and its times are not modelled; the 5000 ms and 50 ms waits may time out at any moment.
- Safety.HandlesClosedInTime: the events inside the read and write overlapped structures, and what the watcher does with handles that may already be closed (its cancel, its wait for the child), are not tracked.
- A second successful `spawn` on one PTY, and failed creation of an event.
- `FreeConsole`, the attribute list, `set_size` (it takes the mutex but not the open flag) and the checks of its arguments.
- Command-line and environment assembly in the two `spawn`s, default backends, the forwarding methods of `PTY`, `get_pid`, `get_fd`, `get_exitstatus`, `wait_for_exit` and `cancel_io`: they would add only easy members.
