# Verified model of asio-protocols

Dafny models of the byte-stream and scheduling logic of the asio-protocols library, with proofs.
`dafny verify dfyconfig.toml` checks the whole project. The theme is one: bytes and requests keep
their order and their meaning, whatever the fragmentation, the scheduling or the retrying.

| file | models |
|---|---|
| `HttpReader.dfy` | the callbacks of the HTTP response reader as a state machine, and what every run of it keeps |
| `HttpRuns.dfy` | the reader with its buffer and socket: every interleaving against a one-shot decoder |
| `HttpWire.dfy` | well-formed responses on the wire, and the proof that decoding inverts encoding |
| `HttpFraming.dfy` | the framing the reader chooses against section 3.3.3 of RFC 7230 |
| `HttpConnection.dfy` | the connection object, method by method, against the state machine |
| `ReadBuffer.dfy` | `read_delimited` and `read` over the shared input buffer |
| `Pool.dfy`, `PoolRuns.dfy`, `PoolOrder.dfy` | the connection pool as a class, all its runs together with connections and requests, and the order in which idle connections are handed out |
| `HttpOutcome.dfy` | the ways a callback of the reader can end |
| `HttpSystem.dfy`, `HttpSteps.dfy` | the pool composed with a full reader on every connection, and what one step of that adds |
| `Client.dfy`, `HttpRetry.dfy` | the retry loop, and where it meets a closed connection |
| `HttpExchange.dfy`, `HttpRounds.dfy` | the client's calls on top of that: retries, who settles whom, and with what |
| `HttpContent.dfy` | what the response shared by the attempts of a call holds when an attempt is settled |
| `HttpFailures.dfy`, `PoolFailures.dfy`, `ExchangeFailures.dfy`, `ContentFailures.dfy` | runs from the start of a connection, a pool or a client on which a property fails |
| `Response.dfy`, `Message.dfy`, `Header.dfy`, `Request.dfy`, `RequestLines.dfy` | responses, header lists, key normalisation, requests as text |
| `DelimStream.dfy` | the delimited stream |
| `WriteBuffer.dfy` | the pending-write accounting of `buffer` |
| `AmqpConnection.dfy`, `AmqpDetails.dfy` | the AMQP read and write handlers, and connection strings |
| `Uri.dfy` | percent-encoding and query strings |
| `Text.dfy`, `Numbers.dfy`, `Prelude.dfy` | `find`, `trim`, `stoi`, `to_string`, and result types |

The classes carry the fields of the C++ objects, and each of their methods is proved to do what a
function on the object's abstract value says. The theorems are about those functions and about
runs of them. An asynchronous operation is split in two steps, the request and the callback; each
callback and each mutex-guarded method is one step. What `std::stoi` does with blanks, signs,
prefixes, trailing text and out-of-range numbers, `static_cast` to `uint16_t` and `size_t`, and
the wrap-around of `size_t` where the reader relies on it are written out.

## What the proofs found

* `buffer::write_complete` deducts a partial completion from a copy of the queue entry
  (include/net/asio/buffer.h:207-213), so the bytes that fall short of the end of an entry count
  for no write at all: a write that completes in pieces is resolved, if at all, only by bytes of
  later writes (`WriteBuffer.OneByteAtATime`, `WriteBuffer.NextWritePays`). A write is resolved
  if and only if one single completion has enough bytes for it and for all that is still queued
  before it; bytes of several completions never add up (`WriteBuffer.ResolvedIffPaidAtOnce`,
  `WriteBuffer.HeadStaysIff`). Queued sizes and pending bytes agree exactly when every completion
  ends on an entry boundary (`WriteBuffer.DriftKeptIffOnBoundary`).
* A connection lost while a chunk size or the line after the last chunk is read settles its
  attempt only if its request is still being sent or its stall timer has just run out: those two
  reads have no error callback (`HttpReader.DisconnectSettlesIff`; a run on which the attempt is
  never settled is `HttpFailures.LostAtChunkSize`).
* The error callback of a request uses the current response without a check. If a server answers
  in full before it has read the request, and the writing then fails, the pointer is null; this
  happens on exactly those runs (`HttpReader.CrashesIff`, `HttpReader.ExposedIffAnsweredEarly`,
  `HttpReader.NoEarlyAnswerNoCrash`; `HttpFailures.AnsweredEarlyCrashes` is one of them).
* A connection that never comes up is removed from its pool before its future is done; nothing
  matches, and the single-element `erase` is applied to the end of the vector
  (`Pool.RemoveIf`, `PoolRuns.BadEraseIff`, `HttpSystem.UndefinedIff`; `PoolFailures.NeverMade` is
  such a run).
* The response object is shared between the attempts of a request, and what is outstanding at a
  close still calls back. So the read, if it has an error callback, or the write of the connection
  that was left can fail the next attempt (`HttpRetry.LateReportFailsRetryIff`), and a read that
  had been completed can even settle it with the old response. A call's attempts are settled
  each by its own connection if and only if no such late report finds the call open; its outer
  completion is settled once in any case (`HttpExchange.OwnConnectionIffNoLateReport`,
  `HttpExchange.CompletedOnce`). `ExchangeFailures.StalledVetoedLate` is a run where one does.
* The content of the response is shared in the same way. An attempt that its own connection
  settles holds exactly what that connection read unless a read callback of another connection
  ran during the attempt (`HttpContent.SettledWithItsOwn`); one that did leaves its status line
  in a response that has no connection yet (`ContentFailures.LateLineIsKept`).
* For the same reason a response can be completed after its connection was closed. The connection
  is released then, `release` does not ask whether it is valid, and a waiting request is written
  to it; this is the only way a request gets to a closed connection (`PoolRuns.StaleIff`,
  `HttpSystem.WrittenToClosedIff`, and for a run `PoolFailures.ReleasedClosed`).
* A spurious failure of `compare_exchange_weak` leaves AMQP data waiting with no write
  outstanding until more data is posted (`AmqpConnection.RunStallsIff`).
* A vhost with a colon and an '@' behind it can make a connection string without a user read
  back as one with a user (`AmqpDetails.VhostTakenForPassword`, `AmqpDetails.ParseOfPrint`).
* `decoded` undoes `encoded` and `escape` exactly for ASCII text: a byte from 128 on is a negative
  `char` and is printed with eight hexadecimal digits (`Uri.RoundTrip`).
* Content-Length decides the framing even when Transfer-Encoding is present too, the first
  Transfer-Encoding is searched for a lower case `chunked` anywhere, and a body that ends with the
  connection is an error, all unlike section 3.3.3 of RFC 7230; on which headers the reader
  follows it is `HttpFraming.FollowsStandardIff`.
* A status line that arrives before the request for it is written closes the connection, and
  only such a line makes the outcome depend on timing (`HttpRuns.FragmentationIrrelevant`).

## Model

| member | source | states |
|---|---|---|
| HttpWire.EveryRunDelivers | include/net/asio/http/connection.h:150-299 | For any sequence of proper responses (length-framed or chunked; only the last may ask to close), any segmentation of their bytes and any interleaving of arrivals, request writes and callbacks: if no status line is read before its request is written, the pool calls and completions so far are a beginning of the expected ones, each attempt settled with its own status, headers and body in order, and at rest they are all of them and no byte or request is left over; otherwise the connection is closed at that line, and its removal follows a beginning of the expected calls |
| HttpWire.DecodeAll | include/net/asio/http/connection.h:150-299 | The one-shot decoder on the concatenated encodings gives exactly the expected calls and leaves nothing unread |
| HttpWire.DecodeResponse | include/net/asio/http/connection.h:150-299 | One encoded response, followed by anything, is consumed exactly, and its attempt is settled with its meaning |
| HttpWire.DecodeFields | include/net/asio/http/connection.h:172-225 | Header lines, with any blanks around the values, are collected in order up to the empty line |
| HttpWire.DecodeChunks | include/net/asio/http/connection.h:227-259 | Chunked decoding inverts chunked encoding for any list of non-empty chunks and leaves exactly what follows the empty trailer |
| HttpWire.DecodeChunk | include/net/asio/http/connection.h:241-244 | One size line and its data with the line end append exactly the data to the body |
| HttpWire.DecodeBody | include/net/asio/http/connection.h:181-198 | From the end of the headers on, the body is read as Content-Length or, without it, as the chunked coding says |
| HttpWire.HexChunkProper | include/net/asio/http/connection.h:232-238 | Sizes in hexadecimal digits of either case are proper chunk sizes up to 2^31 - 1 |
| HttpFraming.FollowsStandardIff | include/net/asio/http/connection.h:180-215 | For all header fields: the reader reads the body that section 3.3.3 of RFC 7230 defines, or gives up where it does, if and only if: with Transfer-Encoding there is no Content-Length, chunked is the last coding and the first field holds its lower case name; without it the Content-Length fields hold the same plain digits below 2^31, or are invalid without starting with a number in range, where the reader throws out of the callback and does not close the connection as that section asks |
| HttpFraming.BothFieldsDisagree | include/net/asio/http/connection.h:182-194 | With both fields the reader never follows that section |
| HttpFraming.ChunkedLastIsFollowed | include/net/asio/http/connection.h:194-198 | A single Transfer-Encoding whose last coding is a lower case chunked is followed |
| HttpRuns.FragmentationIrrelevant | include/net/asio/http/connection.h:150-299 | For any bytes, well formed or not: an interleaved run stays on its way to the result of decoding the whole stream at once if and only if it reads no status line before the request for it is written, and then has that result when nothing more can happen |
| HttpRuns.UnattendedStops | include/net/asio/http/connection.h:153-161 | Any other run stops at the first status line without a request, where it closes the connection |
| HttpRuns.DecodeExtends | include/net/asio/http/connection.h:276-299 | Decoding further never takes back a call already made or a request already written |
| HttpReader.SettledOnceInOrder | include/net/asio/http/connection.h:106-299 | On every run of a connection, with any bytes, read errors, timeouts, written or failed requests, all of them before or after a close: the attempts reported on are those of the requests written, once each and in order, short of at most the current one; the pool's remove is called once if the connection closed, else never |
| HttpReader.HandleConsistent | include/net/asio/http/connection.h:150-274 | Every callback leaves a state in which a response is current whenever the next callback will use it without a check |
| HttpReader.DisconnectSettlesIff | include/net/asio/http/connection.h:227-259 | A lost connection leaves its attempt without any report, whatever happens later, if and only if its read is that of a chunk size or of the line after the last chunk, no write is outstanding, and no timer callback is queued or, after an earlier close, to come |
| HttpReader.DisconnectReports | include/net/asio/http/connection.h:153-274 | Whatever is being read, a lost connection is closed and removed if it was not before; it fails its response if a status line, a header line, the data of a chunk or a counted body was being read, and reports nothing where a chunk size or the line after the last chunk was |
| HttpReader.LostAttemptFails | include/net/asio/http/connection.h:227-274 | For an open connection with a response the calls are exactly Remove and Fail with the id of the attempt and the reason, or Remove alone at those two reads |
| HttpReader.TimeoutReports | include/net/asio/http/connection.h:332-344 | The stall timer closes first and then fails the response, whatever is being read, and the wait started since is cancelled |
| HttpReader.WriteErrorReports | include/net/asio/http/connection.h:120-125 | A failed write fails the response first and then closes; without a response it crashes and closes nothing |
| HttpReader.ThrowsIffMalformed | include/net/asio/http/connection.h:150-259 | A read callback throws exactly for a malformed status line, header line, Content-Length or chunk size; then nothing is closed or reported and the stall timer runs |
| HttpReader.UnframedFails | include/net/asio/http/connection.h:194-215 | Without Content-Length, headers whose Transfer-Encoding does not hold chunked close the connection and fail the attempt with the text of the code |
| HttpReader.LengthAsks | include/net/asio/http/connection.h:182-192 | A negative Content-Length asks for its value plus 2^64 bytes |
| HttpReader.ChunkSizeAsks | include/net/asio/http/connection.h:230-243 | A chunk size asks for two bytes more than its value, modulo 2^64, and zero for the last line |
| HttpReader.ChunkAppends | include/net/asio/http/connection.h:243-246 | A chunk appends all but its last two bytes, and all of fewer than two bytes |
| HttpReader.TimerRuns | include/net/asio/http/connection.h:314-355 | The stall timer runs from a written request, a completed write or a read callback with a response, after a close too, up to where it runs out, is heard, or the connection closes |
| HttpReader.OutstandingBalance | include/net/asio/http/connection.h:106-132 | On every run the requests attached are those of the write events, in order; writes outstanding plus writes ended are the writes made, and timer callbacks due plus those heard are those queued |
| HttpReader.NeverSettledIff | include/net/asio/http/connection.h:106-125 | The attempt of a closed connection is never reported on, whatever happens later, if and only if no timer runs or is due, no write is outstanding and no read is outstanding |
| HttpReader.CrashesIff | include/net/asio/http/connection.h:120-125 | A null response is dereferenced on exactly the runs where the writing of a request fails while no response is current |
| HttpReader.CrashPossibleIff | include/net/asio/http/connection.h:120-125 | A state is one event away from that exactly if a write is outstanding without a current response |
| HttpReader.NoEarlyAnswerNoCrash | include/net/asio/http/connection.h:126-130 | It never happens if every response is complete only after its request, and the earlier ones, have been sent |
| HttpReader.ExposedIffAnsweredEarly | include/net/asio/http/connection.h:126-130 | On every run an outstanding write is at some point left without a current response if and only if some response is complete before its request, or one before it, has been sent |
| HttpFailures.LostAtChunkSize | include/net/asio/http/connection.h:227-258 | A run from a new connection: request sent, chunked header read, connection lost where the first chunk size is read; the attempt is never reported on, whatever happens later |
| HttpFailures.AnsweredEarlyCrashes | include/net/asio/http/connection.h:120-125 | A run from a new connection: an empty response is complete before its request is sent, the write then fails, and the null response is dereferenced |
| HttpReader.ReadingIgnoresWrites | include/net/asio/http/connection.h:126-132 | What a read callback does is independent of how many requests are still being sent |
| HttpConnection.Connection.WriteRequest | include/net/asio/http/connection.h:106-133 | The response becomes the current one, whatever was current before, the printed request is handed to the socket, the write is outstanding and the timer runs |
| HttpConnection.Connection.StatusLineRead | include/net/asio/http/connection.h:153-161 | The status line callback: an unsolicited line closes the connection |
| HttpConnection.Connection.HeaderLineRead | include/net/asio/http/connection.h:174-216 | The header callback, including a line that makes the parser throw |
| HttpConnection.Connection.HeadersEnded | include/net/asio/http/connection.h:180-215 | The end of the headers: Content-Length, else chunked coding, else close and fail; a malformed length throws |
| HttpConnection.Connection.ChunkSizeRead | include/net/asio/http/connection.h:230-258 | The chunk size callback, with the conversions of a negative size |
| HttpConnection.Connection.ChunkRead | include/net/asio/http/connection.h:241-244 | The chunk callback appends all but the last two bytes, with the wrap-around of a shorter text |
| HttpConnection.Connection.ExtractNextBodyChunk | include/net/asio/http/connection.h:276-299 | The completed response is detached, its body set unless chunked, and its completion settled if it is open; the connection goes back to the pool or is closed |
| HttpConnection.Connection.Finish | include/net/asio/http/connection.h:287-298 | Release comes before the completion is settled, a close that the response asks for behind it |
| HttpConnection.Connection.Callback | include/net/asio/http/connection.h:150-274 | With the bytes that arrived with it, the outstanding read completes out of the buffer, if it can, and the right callback runs on its text |
| HttpConnection.Connection.TakeFromBuffer | include/net/asio/http/connection/tcp.h:111-192 | A completed read consumes its result, and its delimiter, from the front of the shared buffer |
| HttpConnection.Connection.CloseConnection | include/net/asio/http/connection/tcp.h:202-221 | Only the first close stops the timer and removes the connection; what is outstanding stays so |
| HttpConnection.Connection.AlreadyClosing | include/net/asio/http/connection.h:360-369 | Reports whether another close came first and marks the connection closed and invalid |
| HttpConnection.Connection.FailCurrentCompletion | include/net/asio/http/connection.h:162-169 | An unsettled current completion fails; a settled one is left alone |
| HttpConnection.Connection.ReadFailed | include/net/asio/http/connection/tcp.h:122-126 | A read error closes the connection, if that has not happened yet, and fails the completion that the response holds by then exactly if it is open and the read is not that of a chunk size or of the line after the last chunk |
| HttpConnection.Connection.TimerExpired | include/net/asio/http/connection.h:332-344 | The stall timer closes the connection, then fails the current completion if it is open |
| HttpConnection.Connection.RequestWritten | include/net/asio/http/connection.h:117-119 | A written request is no longer outstanding and extends the timer, even on a closed connection |
| HttpConnection.Connection.RequestWriteFailed | include/net/asio/http/connection/tcp.h:92-97 | A failed write dereferences a null response if there is none; otherwise the current completion fails if it is open, then the connection closes |
| HttpRetry.LateReportFailsRetryIff | include/net/asio/http/connection.h:117-125 | After a stall or a loss at any point and any handlers that ask for a retry, an error of what was outstanding fails the new attempt if and only if it is the write of the request, or a read other than that of a chunk size or of the line after the last chunk |
| HttpRetry.RetryIsFresh | include/net/asio/http/client.h:69-84 | After any number of vetoed attempts, whatever they left in the response, it has no headers and no body, and a proper response to the next attempt settles that one with its own status, headers and body |
| ReadBuffer.TakeConserves | include/net/asio/http/connection/tcp.h:111-192 | A read's result, its delimiter and the rest make up the text, and the result ends before the first delimiter |
| ReadBuffer.TakeStable | include/net/asio/http/connection/tcp.h:111-192 | Bytes that arrive after a read can complete do not change its result |
| ReadBuffer.BufferingInvisible | include/net/asio/http/connection/tcp.h:111-192 | For any interleaving of reads and arrivals and any reading ahead, the results are those of the same reads on the whole stream, and buffer plus unreceived bytes are what is left of it |
| ReadBuffer.ReadsConserve | include/net/asio/http/connection/tcp.h:111-192 | Results, removed delimiters and the rest always make up the original stream |
| HttpExchange.OwnConnectionIffNoLateReport | include/net/asio/http/client.h:48-108 | On every run of client calls, pool and connections: all attempts of a call are settled each by the connection it was written to, if and only if no late report, failure or completed response, found the call open; an attempt is only ever settled by a connection that worked for the same call; each call is what its rounds made of it, and asked the pool for one connection per attempt |
| ExchangeFailures.StalledVetoedLate | include/net/asio/http/client.h:69-84 | A run from a new client: the first attempt stalls, a handler vetoes, and the read error that the close left outstanding then settles the second attempt: it is attributed to the first connection |
| HttpContent.SettledWithItsOwn | include/net/asio/http/connection.h:150-274 | On every run, with one content shared by all attempts of a call: an attempt that its own connection settles is settled with exactly what this connection read, unless a read callback of another connection ran on the response during the attempt |
| HttpContent.InvKept | include/net/asio/http/client.h:69-84 | Each event, including the reset for a retry, keeps that |
| HttpContent.RoundContent | include/net/asio/http/connection.h:288-296 | The content an attempt is settled with, as the handlers see it, is what the reporting callback leaves in the shared response |
| HttpContent.OthersLeave | include/net/asio/http/connection.h:106-170 | No callback but those of reads changes what the response holds |
| HttpContent.StatusLineOverwrites | include/net/asio/http/response.h:62-82 | A status line that is read in full hides what another connection's status line left before it, so that being touched need not show in the end |
| ContentFailures.LateLineIsKept | include/net/asio/http/client.h:69-84 | A run from a new client: after a stall and a veto the first connection's status line is read into the response of the second attempt, which has no connection yet and finds it there |
| HttpRounds.RoundsTold | include/net/asio/http/connection.h:288-296 | On every run the rounds of a call are those its connections reported while all rounds before were vetoed, in order: a completed one with the content and the status of the response, a failed one with the reason |
| HttpRounds.CompletedWithStatus | include/net/asio/http/client.h:85-100 | On every run a call that is completed has the status of the response that its first round without a veto was completed with |
| HttpExchange.CompletedOnce | include/net/asio/http/client.h:56-85 | Once the outer completion of a call is settled, no later event of any run changes the call |
| HttpExchange.InvKept | include/net/asio/http/client.h:69-84 | Each event keeps the book of attempts, readers and calls in agreement, including the retry that a veto starts |
| HttpExchange.BeginInv | include/net/asio/http/client.h:37-46 | A new client satisfies that invariant |
| HttpExchange.HeardFacts | include/net/asio/http/connection.h:288-296 | A report is on the attempt whose request was written to the reporting connection, and is a late one exactly if that attempt was reported on before |
| HttpSystem.EveryRunSettlesItsOwn | include/net/asio/http/connection.h:106-299 | On every run of pool and full readers together, with any bytes and failures, before and after closes: requests are attached only to readers without a current response, and to open ones but on the runs of WrittenToClosedIff; each connection reports on the attempts the pool wrote to it, in order; each closed connection is removed once; nothing undefined happens but on the runs of UndefinedIff |
| HttpSystem.WrittenToClosedIff | include/net/asio/http/connection.h:291-298 | A request is written to a closed connection on exactly the runs where a response is completed after its connection was closed, while a request waits |
| HttpSystem.UndefinedIff | include/net/asio/http/connection.h:60-79 | An erase without an element or a null dereference happens on exactly the runs where a connection fails to come up, or the writing of a request fails without a current response |
| HttpSystem.BeginLinked | include/net/asio/http/connection_pool.h:27-36 | A new pool and its readers agree, so that every run from there is covered |
| HttpSystem.NextLinked | include/net/asio/http/connection.h:276-298 | Each event keeps pool and readers in agreement on which connections are open and which response is current, even where release starts the next request before the current completion is done |
| HttpOutcome.AfterOutcome | include/net/asio/http/connection.h:106-299 | Every callback makes at most one report, about the current response and late exactly if the attempt was reported on before; a complete response is detached and released before the report or closed for behind it, a failure keeps the response and may close before or behind the report |
| HttpSteps.NewWriteUnwritten | include/net/asio/http/connection_pool.h:108-124 | What the pool writes next was not written before |
| HttpSteps.ReaderPlaced | include/net/asio/http/connection.h:107-114 | The current response of a connection is that of an attempt written to this connection |
| PoolRuns.EveryRunSafe | include/net/asio/http/connection_pool.h:55-190 | On every run: no write over a current response, none to a closed connection but on the runs of StaleIff, every removal finds exactly one future but on the runs of BadEraseIff, one owner for each live connection, the limit holds, nobody waits while a slot is free or a connection idle, the queue is served in order, answers come in order of writing |
| PoolRuns.StaleIff | include/net/asio/http/connection_pool.h:108-124 | A request is written to a closed connection on exactly the runs where one is released while a request waits: release does not ask whether the connection is valid |
| PoolFailures.ReleasedClosed | include/net/asio/http/connection_pool.h:108-124 | A run from a new pool: a closed connection is released while a request waits, and the request is written to it |
| PoolFailures.NeverMade | include/net/asio/http/connection_pool.h:136-158 | A run from a new pool: its first connection does not come up, and its removal finds no future to erase |
| PoolRuns.BadEraseIff | include/net/asio/http/connection_pool.h:136-158 | A removal finds no future to erase on exactly the runs where a connection closes before it was made |
| PoolRuns.InvKept | include/net/asio/http/connection_pool.h:55-190 | Each step of the pool keeps the invariant behind that |
| PoolRuns.StartInv | include/net/asio/http/connection_pool.h:27-36 | A new pool satisfies the invariant |
| PoolRuns.ServedInTurn | include/net/asio/http/connection_pool.h:108-124 | The request at position p of the queue is served by exactly the (p+1)-th later release; before that it has moved forward by the number of releases |
| PoolOrder.IdleInOrder | include/net/asio/http/connection_pool.h:60-69 | On every run the available queue holds the connections that became idle last, in that order; those before them were handed out in exactly the order in which they became idle, but for closed ones that were dropped |
| PoolOrder.FirstIdleFirst | include/net/asio/http/connection_pool.h:108-124 | Of two connections that stay open and both left the queue, the one that became idle first was written to first |
| PoolOrder.NextChoice | include/net/asio/http/connection_pool.h:55-89 | A new request is written to the first idle connection that is not closed; only without one is a connection opened, if there is room; only without room does it wait, at the end of the queue |
| PoolOrder.ConnectedServes | include/net/asio/http/connection_pool.h:60-88 | A new connection serves the attempt it was opened for; a replacement serves the longest waiting request, or becomes idle |
| PoolOrder.CloseReplaces | include/net/asio/http/connection_pool.h:172-188 | A removed connection is replaced exactly if a request waits; the queue of requests is as before |
| PoolOrder.CloseDrops | include/net/asio/http/connection_pool.h:159-171 | After a removal the front of the available queue is an open connection |
| PoolRuns.NoOvertaking | include/net/asio/http/connection_pool.h:60-88 | While a request waits, a new one queues behind it and nothing is written or opened for it |
| PoolRuns.ReleaseServesFirst | include/net/asio/http/connection_pool.h:108-124 | A release writes the longest waiting request to the released connection |
| PoolRuns.OthersKeepQueue | include/net/asio/http/connection_pool.h:130-190 | Nothing but a release takes a request out of the queue |
| PoolRuns.WaiterHasHope | include/net/asio/http/connection_pool.h:172-188 | With a maximum of at least one, some connection is on its way, at work, or about to be replaced while a request waits |
| PoolRuns.Conservation | include/net/asio/http/connection_pool.h:213-227 | The futures of the pool are those of connections on their way, idle, at work and about to close, none counted twice |
| PoolRuns.OwnedKept | include/net/asio/http/connection_pool.h:60-69 | Each step keeps every live connection in exactly one place: connecting, idle once, held by one attempt, about to close |
| PoolRuns.PlacedKept | include/net/asio/http/connection_pool.h:82-88 | Each attempt is queued, waiting for its own new connection, or written: in one place and once |
| PoolRuns.CloseOnce | include/net/asio/http/connection/tcp.h:202-206 | A second close changes nothing |
| Pool.MatchesOnceIffDone | include/net/asio/http/connection_pool.h:140-156 | With one future per connection, remove finds one if and only if the connection's future is done |
| Pool.RemoveIf | include/net/asio/http/connection_pool.h:137-157 | The compaction moves the futures to keep to the front in order and returns their end; erasing the one element there leaves exactly those futures if and only if one future was useless, and the vector has an element there if and only if at least one was |
| Pool.UsefulIsKept | include/net/asio/http/connection_pool.h:140-156 | Among futures that are all there, those the predicate keeps are the slots that are not the done one of the connection |
| Pool.DropStaleSuffix | include/net/asio/http/connection_pool.h:60-69 | What is dropped from the available queue is a run of invalid connections at its front, and the next one is valid |
| Pool.ConnectionPool.Next | include/net/asio/http/connection_pool.h:55-89 | An idle valid connection, else a new one below the limit, else a place in the queue; with the whole new state |
| Pool.ConnectionPool.Release | include/net/asio/http/connection_pool.h:108-124 | The head of the queue gets the connection, or it becomes available |
| Pool.ConnectionPool.Remove | include/net/asio/http/connection_pool.h:130-190 | The vector is corrupted exactly if the connection's future is not done; otherwise the future is erased, invalid idle connections are dropped from the front, a waiting request gets a new connection if there is room, and each connection still has one future |
| Pool.ConnectionPool.ConnectDone | include/net/asio/http/connection_pool.h:274-277 | The future of that connection is done, every other future is unchanged in its place, and each connection still has one future |
| Client.FirstDecidedWins | include/net/asio/http/client.h:48-108 | The outer completion is settled once, by the first attempt no handler vetoes, with its outcome or a thrown failure; attempts are numbered without gaps; a new attempt starts without headers, body and version, and with the status and message of the one before; one connection is asked for per attempt |
| Client.SettledStays | include/net/asio/http/client.h:77-84 | A settled exchange never changes again |
| Client.DecideIsFirst | include/net/asio/http/client.h:15-33 | The chained handlers decide by the first one that vetoes or throws |
| Client.Chained | include/net/asio/http/client.h:26-31 | The loop over the handlers computes that decision |
| Client.Call.OnCurrentReady | include/net/asio/http/client.h:56-85 | The completion handler: settle, fail with the exception, or reset and retry |
| Response.Response.Reset | include/net/asio/http/response.h:136-141 | There is a new current completion; headers, version and body are empty; status and message stay |
| Response.Response.SettleCurrent | include/net/asio/http/connection.h:288-296 | A completion is settled at most once |
| Response.Response.ParseInitialLine | include/net/asio/http/response.h:62-82 | Version, number and message are cut at the first two spaces; what was set before a throw stays |
| Response.ParseOfStatusLine | include/net/asio/http/response.h:62-82 | A printed status line is read back as its version, its number in 16 bits, and its message; if the number is malformed only the version is set |
| Response.StatusLineFails | include/net/asio/http/response.h:62-82 | With a single space only the version is set, with none nothing, each with its own error |
| Response.Response.SetBody | include/net/asio/http/message.h:164-167 | The body is set and Content-Length states its size |
| Message.SetHeaderLaws | include/net/asio/http/message.h:128-139 | A header that was set has the new value, every other lookup is unchanged, and the list grows only if there was no match |
| Message.SetHeaderInPlace | include/net/asio/http/message.h:128-139 | The first match changes its value in its place, every other header stays where it is, and without a match the header is added behind |
| Message.HeaderLineFails | include/net/asio/http/message.h:83-85 | Exactly a line without a colon is refused |
| Message.LookUp | include/net/asio/http/message.h:112-118 | The value of the first matching header, or none |
| Message.WithHeader | include/net/asio/http/message.h:128-139 | The first match changes its value, or a header is added |
| Message.ParseOfHeaderLine | include/net/asio/http/message.h:75-91 | A line key, colon, value with blanks around the value is read as the normalised key and the value |
| Message.ParsedHeaderPrintable | include/net/asio/http/message.h:75-91 | Whatever a header line holds, the parsed header can be printed and read back |
| Header.NormalizeRun | include/net/asio/http/header.h:39-49 | Each maximal run between dashes gets one capital in front and lower case behind |
| Header.NormalizedCase | include/net/asio/http/header.h:39-49 | No front of a run stays a small letter and nothing else stays a capital; apart from the case no character changes |
| Header.CaseOfLetter | include/net/asio/http/header.h:39-49 | Each small letter has its capital and the reverse, and no other character changes |
| Header.NormalizationCases | test/http.cpp:153-166 | Two of the keys the scenario expects |
| Header.NormalizeIdempotent | include/net/asio/http/header.h:39-49 | Normalising twice changes nothing more |
| Header.SameKeyIffEqualIgnoringCase | include/net/asio/http/header.h:64-64 | Two keys match exactly when they are equal ignoring ASCII case |
| Request.RoundTrip | include/net/asio/http/request.h:61-126 | Parsing the bytes of a request restores method, path, version and ordered headers and hands over exactly the body, if and only if the request is printable |
| Request.ParsedPrintable | include/net/asio/http/message.h:39-71 | Every text that parses gives a printable request |
| Request.ParseOfHeaders | include/net/asio/http/message.h:52-70 | Printed headers and an empty line are read back in order, and the rest is the body |
| Request.CutOfInitialLine | include/net/asio/http/request.h:61-84 | Method, path and version in that order; with a single space only the method is set, with none nothing, each with its own error |
| Request.ParseFails | include/net/asio/http/message.h:44-49 | A text without a line end is refused, and an initial line that is refused ends the parsing as it left the request |
| Request.HeadersFail | include/net/asio/http/message.h:52-63 | A header without a colon and headers without a line end behind them are refused |
| RequestLines.PrintedLines | include/net/asio/http/request.h:115-126 | A printed request cut at its line ends: method, path and version with single spaces, each header as key, colon, space and value, an empty line, the body |
| RequestLines.ExampleRequest | test/http.cpp:83-97 | The request of the scenario is read as it expects, and printed as it was |
| Request.Request.Bytes | include/net/asio/http/request.h:115-126 | The bytes of a request are its printed form |
| Request.Request.ParseFirstLine | include/net/asio/http/request.h:61-84 | The initial line is cut at its first two spaces, with both errors |
| Request.Request.ParseData | include/net/asio/http/message.h:39-71 | parse_data does what the parser function says, including the state an exception leaves |
| DelimStream.Stream.Incoming | test/streams.cpp:69-112 | One piece of input emits exactly the items it completes, and completed data plus partial delimiter are the unfinished tail, which holds no delimiter; the partial part has length |delim| - 1 whenever data is held |
| DelimStream.ChunkingIrrelevant | test/streams.cpp:65-117 | For any pieces, the items and the tail are those of the concatenation |
| DelimStream.SplitConcat | test/streams.cpp:69-112 | Splitting a concatenation is splitting its first part and pushing the second |
| DelimStream.JoinOfSplit | test/streams.cpp:82-111 | Splitting loses nothing; no item and no tail contains the delimiter |
| DelimStream.SplitOfJoin | test/streams.cpp:82-111 | Items and tail free of delimiters are the split of their join: the leftmost split is the only one |
| WriteBuffer.DriftKeptIffOnBoundary | include/net/asio/buffer.h:178-222 | On every run pending bytes never exceed the sizes queued, and the difference stays the same exactly if every completion ends on an entry boundary |
| WriteBuffer.ResolvedInOrder | include/net/asio/buffer.h:178-222 | On every run futures resolve in the order of writing, the sizes resolved never exceed the bytes completed, and the totals balance |
| WriteBuffer.ResolvedIffPaidAtOnce | include/net/asio/buffer.h:197-222 | On every run the write at any place of the queue, or written later, is resolved if and only if one single completion, made while it or a write before it was at the head, has at least the sizes from that head up to and including this write, and more than those before it (which matters for a write of no bytes): bytes of several completions never add up |
| WriteBuffer.ResolvedWith | include/net/asio/buffer.h:201-210 | On every run the future of a write gets the byte count of the single completion that pays for it, not the bytes of the write and not those still pending |
| WriteBuffer.HeadStaysIff | include/net/asio/buffer.h:203-214 | The write at the head of the queue is still unresolved after a run exactly if every single completion of the run was smaller than it, however many bytes completed in all |
| WriteBuffer.CoveredIff | include/net/asio/buffer.h:206-216 | A completion takes the entry at place i off the queue exactly if it has the sizes up to and including that entry, and bytes left when it comes to it |
| WriteBuffer.NothingLostIffBoundary | include/net/asio/buffer.h:206-216 | A completion leaves no bytes over exactly when it ends on an entry boundary |
| WriteBuffer.AllResolvedIff | include/net/asio/buffer.h:206-216 | When nothing is pending any more, all sizes are resolved exactly if every completion ended on a boundary |
| WriteBuffer.OneByteAtATime | include/net/asio/buffer.h:207-214 | Two bytes completed one at a time resolve nothing |
| WriteBuffer.NextWritePays | include/net/asio/buffer.h:207-214 | The bytes of the next write then resolve the first one, and the next write is left over instead |
| WriteBuffer.Buffer.WriteComplete | include/net/asio/buffer.h:197-222 | The loop resolves the covered entries, each with the size of this completion; the final assertion never fails |
| WriteBuffer.Buffer.Enqueue | include/net/asio/buffer.h:178-181 | A write is queued with the bytes reserved for it |
| AmqpConnection.EveryRun | include/net/asio/amqp/connection.h:51-123 | On every run at most one batch is outstanding, and the batches followed by the waiting bytes are the data of all posts, in order; without a mishap waiting data always has a write outstanding |
| AmqpConnection.NothingLost | include/net/asio/amqp/connection.h:62-123 | On every run the batches followed by the waiting bytes are what was there before followed by the data of all the posts of the run; there is one batch for each completed write and at most one more; the connection is active once it was set up |
| AmqpConnection.RunStallsIff | include/net/asio/amqp/connection.h:89-123 | A run ends with data waiting and no write outstanding if and only if at some step a spurious exchange failure, or a socket error, met waiting data with nothing else outstanding, and no data was posted since without such a failure |
| AmqpConnection.StallsIff | include/net/asio/amqp/connection.h:90-100 | One step leaves data waiting with nothing outstanding exactly so; in a stalled writer only a post whose exchange succeeds ends it |
| AmqpConnection.StallEnds | include/net/asio/amqp/connection.h:62-72 | The next data posted is sent together with what waited |
| AmqpConnection.Connection.WriteOut | include/net/asio/amqp/connection.h:89-123 | The write handler takes everything as one batch if no write is outstanding |
| AmqpConnection.Connection.SetUp | include/net/asio/amqp/connection.h:30-46 | Setting up starts writing what was posted before |
| AmqpConnection.Connection.OnData | include/net/asio/amqp/connection.h:62-72 | Posted data is appended, with a write outstanding or not, and written if the connection is active |
| AmqpConnection.Connection.OnWritten | include/net/asio/amqp/connection.h:108-115 | A completed batch allows the next one; an error does not start it |
| AmqpConnection.Connection.OnRead | include/net/asio/amqp/connection.h:139-157 | The read loop delivers the frames that the new bytes complete and keeps the rest, for any parser that is stable under appending |
| AmqpConnection.FragmentationIrrelevant | include/net/asio/amqp/connection.h:139-157 | The frames and the rest do not depend on how the bytes were fragmented |
| AmqpConnection.FramesConserve | include/net/asio/amqp/connection.h:145-155 | Consumed frames and the rest make up everything received, and no complete frame is left |
| AmqpDetails.ParseOfPrint | src/amqp.cpp:5-17 | Printing details and parsing the text gives them back if and only if: the scheme is amqp or amqps, the user has no colon, the password no '@', the host is not empty and has no colon or slash, and without a user there is no password and the text of host, port and vhost is not also that of an authentication and a place |
| AmqpDetails.ParseOfMatch | include/net/asio/amqp/connection_details.h:31-64 | What every match becomes: port 5672 or 5671 by a scheme in lower case, an error for other schemes without a port, and with a port its number in 16 bits or an error beyond an int |
| AmqpDetails.VhostTakenForPassword | include/net/asio/amqp/connection_details.h:35-40 | Without a user, host h and vhost a:b@c print to a text that is read back as user h/a, password b and host c |
| AmqpDetails.NoAuthIffNoMatch | include/net/asio/amqp/connection_details.h:35-40 | The expression finds no authentication in a text exactly if no proper authentication and place spell it |
| AmqpDetails.PrintOfParse | include/net/asio/amqp/connection_details.h:31-55 | Printing a parsed connection string gives the string back, for exactly the canonical ones: lower case scheme, slash, no empty user, and a port that is written plainly and is not the default |
| AmqpDetails.NoAtSignRoundTrips | src/amqp.cpp:5-17 | Without authentication, an empty password and a vhost without '@' are enough for that |
| AmqpDetails.MatchSound | include/net/asio/amqp/connection_details.h:35-40 | The captures of the match spell the text and obey the character classes of the expression |
| AmqpDetails.MatchComplete | include/net/asio/amqp/connection_details.h:35-40 | Whenever captures fit they are the match, except that a reading with authentication wins over one without |
| AmqpDetails.MatchOfPlace | include/net/asio/amqp/connection_details.h:36-36 | Host, port and vhost can be read off their text in one way only |
| AmqpDetails.ToString | src/amqp.cpp:5-17 | The appends build the text that the captures of the details spell; an unknown scheme throws |
| Uri.RoundTrip | include/net/asio/http/uri.h:36-93 | Decoding undoes encoding, with either padding, exactly for ASCII text |
| Uri.DecodedLength | include/net/asio/http/uri.h:61-93 | Encoded text always decodes, to something longer if a byte was not ASCII |
| Uri.EncodedCharacters | include/net/asio/http/uri.h:36-72 | Encoded text holds unreserved characters, percent signs and padding, and nothing else |
| Uri.QueryRoundTrip | include/net/asio/http/uri.h:54-59 | Cutting a query at '&' and at the first '=' and decoding recovers the pairs added, in order, exactly if all are ASCII |
| Uri.DecodeWithoutEscapes | include/net/asio/http/uri.h:80-90 | Without a percent sign, decoding makes a space of each plus sign and changes nothing else |
| Uri.EscapeValues | include/net/asio/http/uri.h:82-86 | What any two characters behind a percent sign become: two digits their number, a digit with something else behind it or a blank or sign in front its own number, anything else an error |
| Uri.DecodeTruncated | include/net/asio/http/uri.h:82-84 | Fewer than two characters behind a percent sign end the decoding with an error |
| Uri.EncodedByte | include/net/asio/http/uri.h:36-48 | What each byte becomes: itself if unreserved, else its number in small hexadecimal digits, with six more from 128 on |
| Uri.EncodedUnchangedIff | include/net/asio/http/uri.h:40-46 | A text is its own encoding exactly if all its characters are letters, digits or one of - . _ ~ |
| Uri.PaddingOfQueries | include/net/asio/http/uri.h:36-47 | In a query a number of one digit is padded with a blank; encoded pads it with a zero |
| Uri.EncodeLoop | include/net/asio/http/uri.h:36-72 | The loop of encoded and of escape produces that encoding |
| Uri.Decoded | include/net/asio/http/uri.h:74-93 | The loop of decoded, with the errors of stoi |
| Uri.Uri.Add | include/net/asio/http/uri.h:54-59 | A pair is appended behind '&' unless the query was empty |
| Numbers.StoiOfDecimal | include/net/asio/http/message.h:166-166 | A printed length is read back by the reader's stoi |
| Numbers.StoiReads | include/net/asio/http/connection.h:232-238 | The number that std::stoi reads: blanks, a sign and for base 16 a prefix before the digits, anything but a digit behind them, and an error beyond an int |
| Numbers.StoiFails | include/net/asio/http/connection.h:232-238 | Without a digit behind blanks and a sign there is no number |
| Numbers.ScanIsPositional | include/net/asio/http/connection.h:232-238 | Each digit multiplies the number before it by the base; the text behind the digits, as a chunk extension, is ignored |
| Numbers.DigitValues | include/net/asio/http/connection.h:232-238 | What each digit of either case is worth |
| Numbers.ScanOfHex | include/net/asio/http/connection.h:232-238 | Hexadecimal digits of either case are read as their number |
| Text.FindIsLeftmost | test/streams.cpp:84-84 | find returns the leftmost occurrence and nothing else |
| Text.SixBlanks | include/net/asio/http/message.h:89-89 | The blanks are space, tab, line feed, vertical tab, form feed and carriage return |
| Text.TrimSplits | include/net/asio/http/message.h:89-89 | Trimming removes blanks at both ends and nothing but blanks |

## Left out

- HttpReader.SettledOnceInOrder: an exception that leaves a callback ends the reading and nothing more, because what the futures library and the event loop do with it is not part of this model.
- HttpWire.EveryRunDelivers: for responses with a Content-Length or a chunked body without trailers; responses without a body of their own (HEAD, 1xx, 204, 304) are not among them, since the reader does not treat them apart.
- HttpFraming.FollowsStandardIff: for responses that may have a body; list elements are cut at commas, and coding parameters are not looked into. On an invalid Content-Length giving up means not reading a body: that section also asks to close the connection, and the reader only throws.
- HttpRuns.FragmentationIrrelevant: when a request has been sent is left open, because reading does not depend on it (`HttpReader.ReadingIgnoresWrites`).
- HttpExchange.OwnConnectionIffNoLateReport: for the calls that share one pool. What a response object holds when it is attached is not carried over there; the event `Overwritten` stands for it, and `HttpContent` puts the shared content in its place.
- HttpContent.SettledWithItsOwn: in one direction. The converse is false: what another connection's callback wrote can be overwritten, or be the same text (`HttpContent.StatusLineOverwrites`).
- Pool.ConnectionPool.Remove: says nothing of the pool after a removal that corrupts the vector; the runs of `PoolRuns` and `HttpSystem` end there, as they do after a null dereference.
- PoolRuns.EveryRunSafe: for limits that stay as they are set before the first request.
- DelimStream.Stream.constructor: requires a non-empty delimiter; with an empty one the loop of the code does not end.
- AmqpConnection.Connection.OnRead: the AMQP library's parser is a parameter that never consumes more than it is given and does not change its answer when bytes follow.
- AmqpConnection.EveryRun: speaks of batches handed to the socket; the code ignores how much of a batch the socket accepted.
- Uri.Decoded: fewer than two characters after a percent sign, where the code reads past the end, is an error of its own.
- WriteBuffer.Buffer.Enqueue: the number of bytes reserved is a parameter; the ring buffer and its pointer arithmetic are not modelled.
- Sockets, resolver, TLS, real threads, logging and signals: every callback and every guarded method is one step; stalls and errors are events that may happen at any time.
- The body text handed to `parse_body` is a result of parsing, since the base class ignores it; `content_type` and the other accessors are left out.
- Endpoint lookup and the propagation of limits in `client`, request construction from a URI, and the URI regular expression would add only easy members.
- `space_stream`, `statsd.h`, `sink.h`, `source.h`, `stream.h`, include/net/asio/tcp.h and connection/tls.h are unfinished, thin, or repeat what is modelled.
