# A verified model of the Boost.Asio samples library

`asiolib` wraps Boost.Asio in a small library: an asynchronous TCP client that tracks and cancels requests
on a pool of worker threads, an HTTP/1.1 client and server written as chains of completion handlers, the
blocking partial-transfer loops, a line service and an acceptor. This project models those parts in Dafny
4.11 and proves what they promise over every interleaving, every fragmentation of the byte streams and
every input. `dafny verify dfyconfig.toml` checks all of it.

## What is modelled

**Concurrency** is modelled by state machines. A state holds where every thread is, who owns each mutex,
the shared fields and a few history fields; an action is one atomic step (a lock acquired or released, a
flag read or written, a map operation, an operation initiated or completed, a callback). A run is a
sequence of actions of any length by any number of threads with the states between them; a state is
reachable when a run from the initial state ends in it. A theorem about reachable states is a theorem about
every interleaving, and one about a reachable state and any state it leads to is a theorem about every
continuation.

- `TcpClient` is `AsyncTCPClient`: any number of sessions, workers, `CancelRequest` calls and starts, with
  one `Close`. `TcpClientInvariants` says what every step keeps, `TcpClientSteps` that every step keeps it,
  `TcpClientTheorems` what follows, `TcpClientCalls` what that means in terms of the calls made,
  `TcpClientOutcomes` what is done for each session and what its callback is told, `TcpClientEnding` how runs end,
  `TcpClientWitnesses` what can happen and which conditions of the theorems cannot be dropped, and
  `TcpClientDeadlocks` exactly which calls can deadlock it.
- `HttpCancellation` is one `HTTPRequest` whose six operations complete on any io thread while any number of
  threads call `cancel()`.
- `HalfClose` and `Transfer` run both ends of a connection over bounded channels; `Acceptor` is the accept
  chain and its stop flag.
- `Runs` defines runs, and what they keep, once for all of them.

**Byte handling** is modelled by classes whose methods are the handlers, in the handlers' own order of
effects, over a mutable stream buffer, an input stream with its eof and fail bits, and a connection that
delivers the peer's bytes in chunks of arbitrary non-zero size (`Streams`). Each method is proved against a
specification function, and the theorems are about those functions.

- `HeaderFields` holds the two header parsers, the server's "split at the colon, then at CR" loop and the
  client's "split at CR, then find the colon" loop, the printer, and exactly when the loops end and agree.
  `HeaderOverReads` is about bytes received past the blank line.
- `HttpService`, `HttpClient` and `HttpExchange` are the server, the client and the two together.
  `HttpFragmentation` says for which responses the client's outcome depends on how the bytes arrive.
- `LineService` and `LineExchange` are the line service and its composition with all runs of `TcpClient`.

Integers the program stores are unbounded here except where width matters: the pool size is a byte
(`ThreadCount`) and a status code must fit a 32-bit `unsigned long` (`Stoul`), as on the Windows tool chain
the project files target. A byte is a `char`. Request
identifiers are naturals; the map's narrower signed key holds each 32-bit identifier once.

## What was found

- Cancellation of a TCP session is decided by the session map: the callback is told the error code of the
  operation that failed, or the cancellation if none did and some `CancelRequest` found the session in the map,
  even when identifiers are reused (`TcpClientOutcomes.CallbackErrorExactly`).
- Reusing the identifier of a pending request loses requests from the map: the second replaces the first, and
  when the first completes the second is taken out and can no longer be cancelled (`ReuseReplaces`,
  `ReuseErases`).
- The handlers take the session's cancel guard and then the map guard; `CancelRequest` takes them in the
  other order. Every deadlock is one session and two `CancelRequest` calls for it, so the callers can deadlock a
  client if and only if it has a thread and they start a request and pass its identifier to `CancelRequest`
  twice (`CallersDeadlockExactly`).
- Finitely many calls make a finite run, with a bound on its steps, and after `Close` was called a run that
  cannot go on has returned from it or is deadlocked.
- With no request being started at the time, the return of `Close` means that every request has been called
  back if and only if the client has threads or there was no request (`CloseDrainsExactly`). It has no threads
  when the hardware reports a multiple of 256 of them, none included.
- The HTTP client accepts exactly the server's 200 replies. The other five end in the end-of-stream error with
  the right status stored: they print no field line, and the search for the blank line starts after the
  line break that would have been its first half. In general a well-formed response is accepted if and only if
  it has a field line, or its body starts with a line break or has a blank line in it (`ClientRecoversExactly`).
- The client's header loop does not always end: with a bare CR before the blank line it splits at the wrong
  places and, once the stream has failed, keeps the last header for ever (`BlankLineIsNotEnough`). It ends
  exactly on bytes that are non-empty CR-free strings, each followed by a CR and any one byte, and then
  nothing or a CR (`ClientLoopTerminatesExactly`); so it ends whenever no bare CR comes before the blank line
  (`CleanBlockEndsLoop`).
- What the client makes of a response can depend on fragmentation, and does exactly in two cases
  (`VariesExactly`). In the first, the first line lacks a word that `>>` reads from it, and the stream's first
  two words are the version and something that begins like a number (`SecondLineCodeVaries`). In the second,
  bare CRs shift the header loop so that it comes to the second byte of the blank line, and the body is not
  empty. Then one byte of over-read separates success from an endless loop, or from a body that has lost its
  first byte if that is a CR (`OneByteMatters`, `BareCrSucceedsOrSpins`).
- The server's decision does not depend on fragmentation, but its header map does: bytes received past the
  blank line are parsed as fields. After a block of plain lines they change the map exactly when they hold a
  colon (`HeaderMapIgnoresExtraExactly`); without a colon they never do (`NoColonNoChange`); with one, and an
  empty line in the block, they need not (`ColonNeedNotShow`).
- The two header parsers agree on a block of CR-free non-empty lines exactly when no line without a colon
  stands before one with a colon (`ParsersAgreeExactly`).
- A parsed value keeps the blank after its colon on both sides; section 5.1 of RFC 9112 would have it
  removed.

## Assumptions

`shutdown` and the users' callbacks do not throw; callbacks do not re-enter the client; each `HTTPRequest` is
executed once. Asio's own operations are represented by the steps that complete them,
with any error code, by a connection that may break at any time, by the `read_until` loop (search; report a full buffer; receive or report the end of the
stream) and by the count of outstanding work. The file system is a function from a path to missing,
unreadable or a file's bytes.

## Model

| member | source | states |
|---|---|---|
| TcpClientOutcomes.CallbackErrorExactly | asiolib/tcp-client-async.hpp:92-154 | in every run the one callback of a session is told, under its identifier, the error code its last completed operation was dispatched with, all earlier ones having been free of error; if that is none and some `CancelRequest` found the session, the cancellation; and the first line of the peer's bytes exactly if the read succeeded |
| TcpClientOutcomes.OperationsInOrder | asiolib/tcp-client-async.hpp:92-154 | in every run the operations started for a session are a connection, one write of exactly its request, and a read, in this order; each is started only after the one before has completed without error |
| TcpClientOutcomes.SuccessMeansAllDone | asiolib/tcp-client-async.hpp:112-153 | a callback without error means that all three were started in this order and completed without error |
| TcpClientTheorems.CancellationIsLinearized | asiolib/tcp-client-async.hpp:183-207 | in every run a callback is made once, under the session's identifier, with the session's own error code, or with the cancellation if there is none and any `CancelRequest` ever found the session in the map |
| TcpClientTheorems.CancelFindsExactly | asiolib/tcp-client-async.hpp:157-167 | with distinct identifiers a `CancelRequest` that looks finds the session listed under its identifier, and no other |
| TcpClientTheorems.FlagIsWrittenInMap | asiolib/tcp-client-async.hpp:157-167 | the cancel flag changes only while the session is in the map, under its identifier |
| TcpClientTheorems.DeliveryIsFinalForever | asiolib/tcp-client-async.hpp:183-207 | however a run goes on after a session's callback, the session is neither called back nor found again, so the outcome reported is the last word on cancellation |
| TcpClientTheorems.SuccessMeansAnswered | asiolib/tcp-client-async.hpp:135-152 | a callback without error carries the first line of what the peer sent, and that line was complete |
| TcpClientTheorems.ExactlyOnePlace | asiolib/tcp-client-async.hpp:92-154 | after every run each session is carried by one thread, waits for one operation, or has been called back once, and only one of these |
| TcpClientTheorems.MapIsExact | asiolib/tcp-client-async.hpp:87-90 | with distinct identifiers the map holds exactly the sessions inserted and not past their own erase |
| TcpClientTheorems.CloseDrains | asiolib/tcp-client-async.hpp:169-180 | with a worker and no request being started meanwhile, the return of `Close` means that every request has had its callback, nothing is pending and the map is empty |
| TcpClientTheorems.CloseDrainsExactly | asiolib/tcp-client-async.hpp:169-180 | without a request being started meanwhile, its return means that every request has had its callback if and only if the client was made with a worker or there was no request |
| TcpClientTheorems.OverlapExactly | asiolib/tcp-client-async.hpp:169-180 | a request counts as started meanwhile exactly if some thread was starting one when `Close` was called, or one was started later |
| TcpClientTheorems.DeadlockExactly | asiolib/tcp-client-async.hpp:103-110 | a reachable state has a waiting cycle of any length if and only if a handler that saw the flag holds a guard and wants the map while a canceller holds the map and wants that guard |
| TcpClientTheorems.EmbraceNeedsTwoFinders | asiolib/tcp-client-async.hpp:157-167 | such a session has been found by two different `CancelRequest` calls |
| TcpClientTheorems.OneFinderMeansNoDeadlock | asiolib/tcp-client-async.hpp:125-133 | in every run in which each session is found by at most one `CancelRequest` there is no waiting cycle |
| TcpClientCalls.DifferentCancelsMeanNoDeadlock | asiolib/tcp-client-async.hpp:157-167 | the callers' condition: in every run in which no identifier is passed to `CancelRequest` twice there is no waiting cycle, even when identifiers of requests are reused |
| TcpClientCalls.RunKeepsCalled | asiolib/tcp-client-async.hpp:157-163 | whoever has found a session was called with that session's identifier |
| TcpClientEnding.FiniteCallsFiniteRun | asiolib/tcp-client-async.hpp:72-207 | finitely many calls make a finite run: at most 29 steps for a request, 8 for a cancel call, and two for a worker and two more for `Close` |
| TcpClientEnding.EndsClosedOrEmbraced | asiolib/tcp-client-async.hpp:169-180 | a run that cannot go on after `Close` was called has returned from it, or is in the deadlock |
| TcpClientEnding.EndsAnswered | asiolib/tcp-client-async.hpp:169-180 | so with a worker, no request being started meanwhile and no identifier cancelled twice, it has returned from `Close` with every request called back once and the map empty |
| TcpClientTheorems.NoEmbraceMeansProgress | asiolib/tcp-client-async.hpp:183-195 | without that deadlock some thread can take its step whenever any thread is inside the client's code |
| TcpClientSteps.ReachableInv | asiolib/tcp-client-async.hpp:72-207 | the invariant (lock ownership, one place per session, map soundness and completeness, who found and flagged a session, verdicts, the exact work count) holds in every reachable state |
| TcpClientSteps.ActionKeepsInv | asiolib/tcp-client-async.hpp:72-207 | every action of every thread keeps the invariant |
| TcpClientSteps.CloseKeepsWork | asiolib/tcp-client-async.hpp:169-180 | the steps of `Close` keep the outstanding-work count exact |
| TcpClientInvariants.WorkKept | asiolib/tcp-client-async.hpp:92-154 | every other step does: the count is the guard's unit, one per pending operation and one per thread in a handler |
| TcpClientInvariants.MapCompleteKept | asiolib/tcp-client-async.hpp:87-90 | with distinct identifiers an inserted session stays in the map until its own erase |
| TcpClientInvariants.MapSoundKept | asiolib/tcp-client-async.hpp:188-195 | the map never holds a session past its erase, whatever identifiers are reused |
| TcpClientInvariants.VerdictsKept | asiolib/tcp-client-async.hpp:197-206 | the lock-free read of the flag after the erase sees every finder's write, and a session without error has its answer |
| TcpClient.ThreadCountIsZeroExactly | asiolib/tcp-client-async.hpp:51-64 | the pool is empty exactly when no number is requested and the hardware's is a multiple of 256 |
| TcpClient.ThreadCountExactly | asiolib/tcp-client-async.hpp:51-64 | a number of threads that is requested is the pool's, and otherwise the hardware's modulo 256 is |
| TcpClientDeadlocks.CallersDeadlockExactly | asiolib/tcp-client-async.hpp:157-167 | the exact condition on the callers: some run whose `EmulateLongComputationOp` and `CancelRequest` calls are among given ones has a waiting cycle if and only if there is a worker and the calls start a request and cancel its identifier from two calls |
| TcpClientDeadlocks.EndsAnsweredWithin | asiolib/tcp-client-async.hpp:169-180 | with calls that cannot deadlock, a worker, and no request being started meanwhile, a run that cannot go on after `Close` was called has returned from it with every request called back once |
| TcpClientWitnesses.DeadlockIsReachable | asiolib/tcp-client-async.hpp:103-110 | for every positive number of workers, every identifier, duration and peer, and any two cancellers, a run of just these three calls that ends in the deadlock |
| TcpClientWitnesses.AnswerIsPossible | asiolib/tcp-client-async.hpp:72-154 | for every call whose peer sends a line and every positive number of workers, a run in which the callback is told that line |
| TcpClientWitnesses.ReuseReplaces | asiolib/tcp-client-async.hpp:87-90 | a second request under the identifier of a pending one takes its place in the map |
| TcpClientWitnesses.ReuseErases | asiolib/tcp-client-async.hpp:188-195 | when the first one then completes, the second is taken out of the map although it is pending |
| TcpClientWitnesses.NoWorkersNoDrain | asiolib/tcp-client-async.hpp:169-180 | without workers `Close` returns while a request started before it is unanswered |
| TcpClientWitnesses.OverlapNoDrain | asiolib/tcp-client-async.hpp:169-180 | with a worker it can, too, when a request is being started |
| HttpCancellation.ReachableInv | asiolib/http-client-async.hpp:130-397 | over all interleavings the mutex has one owner, the request is in one place, and the checks made match the operations launched |
| HttpCancellation.ExactlyOnePlace | asiolib/http-client-async.hpp:130-397 | from `execute()` on, exactly one of: a thread decides how the request goes on, one operation is pending, the callback has been called once |
| HttpCancellation.CallbackExactlyOnce | asiolib/http-client-async.hpp:387-397 | when everything has completed the callback has been called exactly once |
| HttpCancellation.CallbackOutsideLock | asiolib/http-client-async.hpp:144-150 | no path runs the callback while its thread holds the cancel mutex |
| HttpCancellation.NeverStuck | asiolib/http-client-async.hpp:160-169 | in every reachable state a thread can step, an operation is pending, or all is over, or the one thing left is a header loop that never ends, with the mutex free |
| HttpCancellation.NothingLaunchedAfterCancel | asiolib/http-client-async.hpp:160-169 | once the flag is set no operation is initiated in any continuation |
| HttpCancellation.CancelBeforeLastCheck | asiolib/http-client-async.hpp:356-375 | a flag set before the sixth check rules out success in every continuation |
| HttpCancellation.CancelledSucceedsExactly | asiolib/http-client-async.hpp:356-422 | whether the handlers run on one io thread, as in `HTTPClient`, or on more: in every state reachable on them with the flag set, success is still possible on them if and only if the body is being read, or its handler was entered with the end of the stream or no error, or is about to report success, or has |
| HttpCancellation.CallbackErrorExactly | asiolib/http-client-async.hpp:130-397 | over every run the operations complete in order, each handler but the last going on; the callback is told the cancellation if a check found the flag set, and otherwise the last completion's own error, the end of the body being success and a rejected status line its own error |
| HttpCancellation.FlagExactly | asiolib/http-client-async.hpp:160-169 | the flag is set exactly when some `cancel()` call has got past setting it, so always once one has returned |
| HttpCancellation.SuccessIsPossible | asiolib/http-client-async.hpp:130-397 | on any io threads, one or more, some run ends in success |
| HttpCancellation.AbortIsPossible | asiolib/http-client-async.hpp:130-169 | any thread's `cancel()` before `execute()` can end the request with nothing initiated |
| HttpCancellation.PastLastCheckMeansChecked | asiolib/http-client-async.hpp:356-385 | in each of these places all six checks have been made and found the flag clear |
| HttpCancellation.SuccessMeansNeverSeenCancelled | asiolib/http-client-async.hpp:377-397 | a successful callback means that all six checks found the flag clear and the six operations ran in order |
| HttpCancellation.SeenMeansAborted | asiolib/http-client-async.hpp:182-189 | a check that sees the flag makes the callback's error the cancellation |
| Streams.ReadUntil | asiolib/http-service-async.hpp:39-48 | whatever the chunks, no byte is lost or reordered, the limit is kept, and the report is a function of the whole stream |
| Streams.InputStream.Getline | asiolib/http-client-async.hpp:337 | the delimiter is consumed and not stored; a stream that is not good keeps the target as it was |
| Streams.InputStream.Get | asiolib/http-client-async.hpp:338 | one byte is consumed, or the end is noted |
| Streams.InputStream.Word | asiolib/http-client-async.hpp:276 | leading white space and one word are consumed, nothing else |
| Text.StoulDecimal | asiolib/http-client-async.hpp:289 | `stoul` inverts the decimal printer for every number that fits |
| Text.StoulOfNumber | asiolib/http-client-async.hpp:289 | blanks, a sign and digits with anything after them are read as their number, with a minus sign as the number that adds up to 2^32 with it, and refused exactly if the digits do not fit |
| Text.StoulNeedsNumber | asiolib/http-client-async.hpp:289 | nothing else is read as a number |
| Streams.FirstLineExactly | asiolib/io_buffers.hpp:284-287 | the line read is everything before the first line break, or the whole text if there is none |
| HeaderFields.ServerLoopOnFields | asiolib/http-service-async.hpp:135-150 | on field lines followed by anything the server's loop folds the lines into the map and goes on with the rest |
| HeaderFields.ClientLoopOnBlock | asiolib/http-client-async.hpp:335-354 | on plain lines and a blank line the client's loop ends with the left fold over the lines that have a colon and the body untouched |
| HeaderFields.ClientLoopTerminatesExactly | asiolib/http-client-async.hpp:335-354 | the `while (true)` loop breaks in some pass if and only if the unread bytes are non-empty CR-free strings, each followed by a CR and any one byte, and then nothing or a CR |
| HeaderFields.ClientLoopBreaksFirst | asiolib/http-client-async.hpp:335-354 | then it breaks in pass `Passes` and in none before, with the map and the unread bytes of the specification |
| HeaderFields.ClientLoopOnPieces | asiolib/http-client-async.hpp:335-354 | on such bytes the map is the left fold over the strings and all but the first two bytes of the end are left unread |
| HeaderFields.CleanBlockEndsLoop | asiolib/http-client-async.hpp:310-319 | when the blank line has been found and no bare CR comes before it, the loop ends whatever has been received after it, with one and the same map, and leaves the bytes after the blank line, or after a leading break |
| HeaderFields.BlankLineIsNotEnough | asiolib/http-client-async.hpp:310-319 | an input with a blank line in it on which no pass ever breaks |
| HeaderFields.ParsersAgreeExactly | asiolib/http-service-async.hpp:135-150 | on plain lines ended by a blank line the two parsers build the same map if and only if no line without a colon precedes one with a colon |
| HeaderFields.PrintThenParse | asiolib/http-client-async.hpp:341-352 | on both sides parsing inverts printing; the last duplicate wins |
| HttpService.DecisionIgnoresFragmentation | asiolib/http-service-async.hpp:53-112 | the decision is a function of the peer's whole stream, however many bytes the first read took |
| HttpService.DecideOnLine | asiolib/http-service-async.hpp:75-112 | for every stream whose first line ends within 4096 bytes, on its line cut at the first CR: 501 unless the first word is GET, 505 unless the third is HTTP/1.1, and otherwise the second word is served if the blank line ends within 4096 bytes of what follows, else 413 or nothing |
| HttpService.DecideWithoutLine | asiolib/http-service-async.hpp:57-73 | for every other stream: 413 from 4096 bytes on, nothing below |
| HttpService.AnswerOfDecision | asiolib/http-service-async.hpp:157-202 | the bytes sent for each decision: status line and blank line for the five errors, length and body for a readable file at "sample" and the resource |
| HttpService.AnswerOnLine | asiolib/http-service-async.hpp:84-99 | which streams are answered with 501 and which with 505 |
| HttpService.TooLargeExactly | asiolib/http-service-async.hpp:57-67 | 413 arises exactly when the required delimiter does not end within the first 4096 unconsumed bytes and at least that many arrive |
| HeaderOverReads.HeaderMapIgnoresExtraExactly | asiolib/http-service-async.hpp:135-150 | after any block of non-empty CR-free lines, with or without colons, bytes received past the blank line change the header map exactly when they hold a colon |
| HeaderOverReads.NoColonNoChange | asiolib/http-service-async.hpp:135-150 | whatever the header bytes are, without a colon past the first blank line the map is the same however much has been received |
| HeaderOverReads.FragmentationShows | asiolib/http-service-async.hpp:101-111 | of two prefixes of one stream that the second read may deliver, the block with its blank line and that with a colon after it, the maps differ |
| HeaderOverReads.ColonNeedNotShow | asiolib/http-service-async.hpp:135-150 | outside such blocks a colon need not show: after an empty line, a field and the blank line, the same field again leaves the map as it was |
| HttpService.StatusOf | asiolib/http-service-async.hpp:9-18 | every decision that is answered has a status in the table, and it is 200 exactly for a readable resource |
| HttpService.Service.HandleRequest | asiolib/http-service-async.hpp:37-49 | one operation is outstanding, the read of the request line |
| HttpService.Service.OnRequestLineReceived | asiolib/http-service-async.hpp:53-112 | the handler's next state for every error code and buffer: 413, freed, or by the verdict on the line, which `DecideOnLine` gives on its words, 501, 505, or the second read with the resource stored |
| HttpService.Service.OnHeadersReceived | asiolib/http-service-async.hpp:114-155 | the handler's next state: 413, freed, or the reply the file system calls for, with the map of the header loop |
| HttpService.Service.ParseHeaders | asiolib/http-service-async.hpp:135-150 | the loop ends with the buffer used up and the map its specification gives |
| HttpService.Service.ProcessRequest | asiolib/http-service-async.hpp:157-182 | status, body and field line for every state of the file; a length is printed exactly for a body that is served |
| HttpService.Service.SendResponse | asiolib/http-service-async.hpp:184-212 | the status is in the table and the bytes written are the printed reply |
| HttpService.Service.OnResponseSent | asiolib/http-service-async.hpp:214-225 | the object is freed once, with nothing outstanding |
| HttpService.RunWithAnyErrors | asiolib/http-service-async.hpp:37-230 | whatever the buffer holds when a handler runs and the operations report, the object ends freed exactly once with nothing outstanding, and at most one reply is written: its status is in the table, and it has a content-length, that of its body, if and only if the status is 200 |
| HttpService.ServeConnection | asiolib/http-service-async.hpp:37-230 | for every fragmentation the bytes sent back are the answer to the stream, and the object is freed once |
| HttpClient.Request.Execute | asiolib/http-client-async.hpp:130-158 | the first check and the first operation |
| HttpClient.Request.OnHostNameResolved | asiolib/http-client-async.hpp:172-197 | the outcome of the handler for every error code and flag |
| HttpClient.Request.OnConnectionEstablished | asiolib/http-client-async.hpp:199-230 | the request printed is `RequestBytes`, and is written unless cancelled |
| HttpClient.Request.OnRequestSent | asiolib/http-client-async.hpp:232-260 | the sending side is shut, and the status line is read unless cancelled |
| HttpClient.Request.OnStatusLineReceived | asiolib/http-client-async.hpp:262-320 | the status stored and the bytes left unread, or the rejection, for every buffer |
| HttpClient.Request.OnHeadersReceived | asiolib/http-client-async.hpp:322-375 | the map and the bytes left unread when the loop ends, and when it does not |
| HttpClient.Request.ParseHeaders | asiolib/http-client-async.hpp:332-354 | the loop refines its specification and is cut short only in a pass after which it would never end |
| HttpClient.Request.OnResponseBodyReceived | asiolib/http-client-async.hpp:377-385 | the end of the stream is success, everything else its own error |
| HttpClient.Request.Complete | asiolib/http-client-async.hpp:152-385 | every handler moves on to a later operation, and then only if not cancelled, or ends the request with one callback |
| HttpClient.RunWithAnyErrors | asiolib/http-client-async.hpp:130-397 | for every sequence of completions and cancellations between handlers there is one callback unless the header loop never ends, and success only if no cancellation came before the body was being read |
| HttpClient.Fetch | asiolib/http-client-async.hpp:130-397 | the whole chain sends the request and shows the callback the outcome of the response for every fragmentation |
| HttpClient.ClientRecoversResponse | asiolib/http-client-async.hpp:262-385 | every well-formed response with a field line is recovered, status, message, map and body, under every fragmentation |
| HttpClient.ClientNeedsAField | asiolib/http-client-async.hpp:310-319 | under every fragmentation a response without field lines ends in success with exactly the body when the body starts with a line break or has a blank line in it, and otherwise in the end-of-stream error with its status stored |
| HttpClient.ClientRecoversExactly | asiolib/http-client-async.hpp:262-385 | under every fragmentation a well-formed response is recovered with success if and only if it has a field line or its body completes the blank line |
| HttpClient.HeaderlessAccepted | asiolib/http-client-async.hpp:310-354 | such accepted responses without field lines are there, for every code, reason and body that starts with a line break, and can be received |
| HttpFragmentation.VariesExactly | asiolib/http-client-async.hpp:262-385 | for every stream, well formed or not: some two fragmentations show the callback different outcomes if and only if the first line holds the words read from it, is accepted, and non-empty CR-free strings, each with a CR and any byte, take up the rest through the first byte of the blank line, with bytes after that line; or the first line lacks one, and the stream's first two words are the version and the beginning of a number |
| HttpFragmentation.RejectedExactly | asiolib/http-client-async.hpp:276-294 | under every fragmentation a first line that holds its words is rejected if and only if the first is not HTTP/1.1 or the second is no number |
| HttpFragmentation.StatusIsStored | asiolib/http-client-async.hpp:289-298 | otherwise that number is the status code, and what follows it up to the first CR the message |
| HttpFragmentation.NoLineIsEof | asiolib/http-client-async.hpp:262-269 | without a line break the end of the stream is reported |
| HttpFragmentation.OutcomeIgnoresFragmentation | asiolib/http-client-async.hpp:262-385 | for every stream that is not `Sensitive` any two fragmentations give one outcome |
| HttpFragmentation.FragmentationMatters | asiolib/http-client-async.hpp:262-385 | for every stream that is, some two give different ones |
| HttpFragmentation.OneByteMatters | asiolib/http-client-async.hpp:322-385 | if the header loop is shifted into the blank line, over-reading nothing gives success with all that follows as the body; over-reading one byte loses that byte if it is a CR, and otherwise the loop never ends |
| HttpFragmentation.BareCrSucceedsOrSpins | asiolib/http-client-async.hpp:310-354 | such responses are there: for every code, reason, field line with a bare CR after it and body not starting with a CR, one fragmentation succeeds with the body and another never ends |
| HttpFragmentation.SecondLineCodeVaries | asiolib/http-client-async.hpp:276-295 | every response whose code is on its second line is among the others |
| HttpFragmentation.CleanResponseDoesNotVary | asiolib/http-client-async.hpp:262-385 | no response varies whose first line holds the words read from it and which has no bare CR before its blank line |
| HeaderFields.UnshiftedParse | asiolib/http-client-async.hpp:335-354 | if the header loop is not shifted into the blank line, it ends with one map and leaves the same bytes, and those after the blank line, however many of these have been received |
| HeaderFields.ShiftedParse | asiolib/http-client-async.hpp:335-354 | if it is, it ends when nothing has been, and with one byte more ends only if that is a CR |
| HttpExchange.RequestRoundTrip | asiolib/http-client-async.hpp:209-211 | the server decides to serve exactly the client's URI, for every word as URI and CR-free host, unless the request line with its break or the rest exceeds 4096 bytes, and then it answers 413 |
| HttpExchange.RequestHeadersRoundTrip | asiolib/http-service-async.hpp:135-150 | it recovers exactly the host field, whatever prefix had been received |
| HttpExchange.ReplyIsResponse | asiolib/http-service-async.hpp:184-202 | every reply of the table is a well-formed response with its code and reason |
| HttpExchange.ClientAcceptsExactly200 | asiolib/http-service-async.hpp:175-202 | under every fragmentation a 200 reply with any body ends in success with " OK", the length field and exactly the body; each other reply ends in the end-of-stream error with its own status and message |
| HttpExchange.Fetch | asiolib/http-client-async.hpp:130-397 | both programs together: the callback sees `Fetched` for every URI, host, file system and pair of fragmentations |
| Transfer.WriteToSocket | asiolib/io_buffers.hpp:35-77 | whatever the partial counts, exactly the buffer is sent; or the connection breaks, its error is reported, and a proper part has been sent |
| Transfer.ReadFromSocket | asiolib/io_buffers.hpp:118-170 | exactly the next `size` bytes, in place; or an error, and then the stream has ended before that many or the connection is broken |
| Transfer.ReadFromSocketByDelimiter | asiolib/io_buffers.hpp:214-245 | the bytes before the first delimiter, bytes received after it being dropped; or an error, and then there is no delimiter or the connection is broken |
| Transfer.SendRequestAndGetReplay | asiolib/io_buffers.hpp:270-290 | the request is sent whole, the sending side is shut, and the reply is returned up to its first line break, or whole if it has none; or the connection breaks, and the sending side is shut only if the request was sent whole |
| Transfer.GetRequestAndSendReplay | asiolib/io_buffers.hpp:292-314 | the request is read to its end, the reply sent whole, and the request returned up to its first line break, or whole if it has none; or the connection breaks, and nothing is sent unless the request was read to its end |
| Transfer.NothingIsLost | asiolib/io_buffers.hpp:35-77 | over every schedule the bytes received and in flight are exactly the sent prefix of the source, and every step moves a byte |
| Transfer.TransferOutcome | asiolib/io_buffers.hpp:118-170 | every schedule is finite, and neither loop can go on exactly when the reader has all it can get and the writer has sent what fits |
| Transfer.EqualBuffers | asiolib/io_buffers.hpp:118-170 | a write of N bytes against a read of N bytes is over exactly when the buffers are equal, in at most 2N steps |
| HalfClose.EachGetsTheOthersLine | asiolib/io_buffers.hpp:270-314 | in every interleaving each end returns exactly the other's message up to its first line break, or whole if it has none |
| HalfClose.ExchangeCompletes | asiolib/io_buffers.hpp:270-314 | over channels with room for a byte every run is finite and nothing is left to do exactly when both ends have returned those lines |
| HalfClose.StuckExactly | asiolib/io_buffers.hpp:270-314 | nothing can happen exactly when both ends have returned or a channel without any room blocks a write |
| HalfClose.AfterSteps | asiolib/io_buffers.hpp:270-314 | every run conserves the bytes of both directions, tells an end only after the last byte, and is bounded by twice the bytes and six steps |
| LineService.Service.ReceiveRequest | asiolib/tcp-server-async.hpp:54-72 | an error frees the service; otherwise the answer to the first line is being written |
| LineService.Service.ProcessRequest | asiolib/tcp-server-async.hpp:35-52 | the answer is the fixed prefix, the first line and a line break |
| LineService.ServeConnection | asiolib/tcp-server-async.hpp:15-79 | for every fragmentation the bytes sent back are the answer to the stream, and the service is freed once |
| LineService.RunWithAnyErrors | asiolib/tcp-server-async.hpp:15-79 | whatever the peer sent and the operations report, the service is freed once, having prepared the answer to the first line if the read succeeded |
| LineService.AnswerReadByLine | asiolib/tcp-server-async.hpp:47-51 | read by line, the answer is the prefix and the line that was sent, whatever follows it |
| LineService.AnswerExactly | asiolib/tcp-server-async.hpp:47-51 | the answer to every stream: "request is processed!: ", its first line and a line break, or nothing if it has no line break |
| LineExchange.SessionsAreStarts | asiolib/tcp-client-async.hpp:72-90 | after every run the sessions are the calls that made them, with identifier, request and peer unchanged |
| LineExchange.NoCrossTalk | asiolib/tcp-client-async.hpp:112-153 | whatever the other sessions and their peers do, a session whose peer is a line service that answers what it received of the bytes the session's write carried, and whose callback reports no error, is told, once and under its own identifier, "request is processed!: " and its own request |
| Acceptor.ExactlyOneAccept | asiolib/tcp-server-async.hpp:105-132 | from the start to the close there is exactly one accept operation or accept handler |
| Acceptor.OneServiceEach | asiolib/tcp-server-async.hpp:115-132 | over every run, before `Stop` and after, the services made, and the one that is due, are as many as the connections accepted |
| Acceptor.AtMostOneMore | asiolib/tcp-server-async.hpp:98-132 | after `Stop` at most one more service is created, in every continuation |
| Acceptor.OneMoreExactly | asiolib/tcp-server-async.hpp:115-132 | it can be created if and only if the chain is not started, has an accept pending, is about to initiate one, or has accepted a connection it has not yet made a service for |
| Acceptor.StopCanClose | asiolib/tcp-server-async.hpp:98-132 | in every state of the chain `Stop` can be called, and then the acceptor can be closed |

## Left out

- The handlers of `AsyncTCPClient`, `HTTPRequest`'s cancellation and the acceptor are atomic steps of state machines rather than methods of a class, because a method body cannot be interleaved with another; update in place of a session is a step that replaces its record.
- The two views of `HTTPRequest` are separate: `HttpCancellation` interleaves cancellation inside the handlers and takes how a parse ends as given, `HttpClient` parses the bytes with cancellation between handlers.
- TcpClient.ThreadCountIsZeroExactly: the hardware's number of threads is a parameter.
- HalfClose.ExchangeCompletes: over a connection that does not break; one that does is in the methods of `Transfer`, and broken operations of the handlers are in the two `RunWithAnyErrors`.
- Sockets, endpoints, name resolution, binding and connecting: thin calls into Asio with error texts.
- The synchronous TCP and UDP clients and servers: the same line framing with less state.
- `AsyncServer`'s thread pool, whose `Stop` also stops the io_context: that only leaves out steps of `Acceptor`.
- `http-errors.hpp`: `invalid_response` is one constructor.
- Real time, the counting busy-loop, console output and logging.
- Executing one `HTTPRequest` twice, and callbacks that call back into the client.
