# A verified model of the client/server framework and its calculator

The framework connects a client to a server by a request-reply protocol. A scraper thread reads
records from a text stream and pushes them onto a locked queue. The client thread sends the front
record, waits for its response, handles it and removes the record; on an aborted, reset or timed-out
connection it opens another one and sends the same record again. The server gives every connection a
session, which reads a request, applies a strategy and writes the response. Messages travel as frames:
eight characters of hexadecimal length, then the filtered payload. The calculator is the program built
on it.

This project states what these parts do, and proves what they do together.

## How it is organised

- `HexHeader`, `Framing`, `Messages`, `Connections`: the codec. `Framing` is the reader as a machine fed
  byte by byte. `Connections` holds the class that the source has, with blocking and asynchronous reads
  and writes over a socket, each proved against a specification on values. `TextArchive` is one archive
  that inverts.
- `Rounding`, `Numbers`, `Doubles`: doubles of 64 bits, with infinities, NaNs and signed zeros; how a
  numeric field is accumulated and rounded to the nearest one, how one is printed with fifteen
  significant digits, and which ones survive both.
- `Characters` and `Numerals`: what is printed and what a line means, told by the codes of the characters
  and independently of how printing and reading are defined.
- `Records`, `Scraping`, `ScrapingLaws`, `RoundTrip`, `Scraper`: the printer and the scraper. `Scraping` is
  the specification on values; `Scraper` the stream, the buffer, the item extraction and the loop as
  classes that refine it; `ScrapingLaws` and `RoundTrip` its laws.
- `SafeQueue`, `Sessions`, `Client`: the queue, the server with its sessions, and the client thread with
  the nested loops it is written as, working on that queue.
- `Protocol` and `ProtocolInvariant`: everything together, as one machine of atomic steps. A state holds
  the input, the program counter of both client threads, the queue, the client's data buffer, and for
  every connection ever opened the bytes under way in each direction and the phase of its session.
  Sessions of lost connections live on and may still execute what has reached them. A write may fail
  after delivering any part of its frame, a read after any part of a response. The two reads of the exit
  guard are two steps. `Client` is tied to the machine by leaving exactly the state that its schedule gives,
  `Sessions` by `MachineFollowsHandlers`, and `Connections` by lemmas in `Calculator`.
- `ProtocolTheorems`, `Origins`, `Duplication`, `Exit`, `Progress`, `Completion`, `Limits`: what follows for
  every run, what every run can still do, and runs that show what does not hold.
- `Calculator`: the framework with the calculator's scraper and codec, from printed text to handled
  responses, and instances of everything the theorems assume.

## What is assumed

- A connection is a fresh, reliable, ordered stream of bytes in each direction.
- An archive and a stream filter invert: `Archive.Inverts`, `Filter.Inverts`, `Codec.Inverts`, for every
  record and response there is, infinite and NaN results included (the line `1 5 / 0` is accepted, and is
  answered by an infinity). `Calculator.AssumptionsAreMet` gives a codec that does.
- Uninitialised memory is a parameter (`Environment.memory`): the padding, which the scraper never sets,
  and the items of a line that ends early have whatever values it gives.

## What turned out not to hold

- Not every accepted record need be handled before the client exits, for two reasons. The guard looks at
  the queue, then at the stream, and a push in between is missed: `Calculator.PrintedRecordCanBeDropped`.
  And when finding a record has already ended the input, for want of a last newline or at a line that is
  too long, the stream is not good while the record is still to be pushed:
  `Calculator.UnterminatedRecordCanBeMissed`. `Exit.ExitHandlesEverythingExactly` says exactly when all are
  handled. An atomic guard would remove the first reason and not the second
  (`Exit.AtomicGuardExactly`); on input that is read to its end it would do
  (`Exit.AtomicGuardHandlesEverything`). Before the client has looked at the queue for the last time,
  everything can still be handled: `Completion.CompletesExactly`.
- A request can be executed more than once: `Calculator.PrintedRecordCanBeExecutedTwice` gives a run,
  `Duplication.ExecutedTwiceExactly` says exactly when, `Duplication.ExecutionsExactly` how often.
- A reset connection is not always opened again, although the code lists the reset among the errors after
  which it retries. The blocking read decodes a body that was cut short before the caller can see the
  error, and the exception ends the client: `Calculator.PrintedRecordCanEndClient` gives a run,
  `ProtocolTheorems.ReconnectsExactly` says exactly when.
- The blocking and the asynchronous read do not agree everywhere: besides that, the blocking one leaves
  the error code clear on an invalid header. `Connections.FormsOfReadingAgreeExactly` says exactly where
  they differ, `Connections.InvalidHeaderIsHidden` and `Calculator.FormsDifferOnCutBody` give inputs.
  Invalid headers do not arise between this client and this server
  (`ProtocolTheorems.NothingInvalidArrives`); cut bodies do.
- A header can announce a body of almost 2^64 bytes, by a minus sign: `HexHeader.MinusOneIsHuge`, and
  exactly when, `HexHeader.ParsedSizeBound`.
- The scraping loop spins on text without a final newline (`RoundTrip.UnterminatedLineSpins`), and stops at
  a line of 1000 characters or more (`ScrapingLaws.LongLineStops`), against the comment that bad items are
  ignored and scraping goes on; exactly when, `ScrapingLaws.LoopEndsExactly` and
  `ScrapingLaws.ScrapingEndsExactly`.
- Not every record survives printing. A double does exactly if it is the nearest one to some number of at
  most fifteen decimal digits (`Doubles.SurvivesExactly`), as it is when it was written with no more;
  2^53 - 1 is not (`Doubles.SixteenDigitsAreLost`).

## Model

| member | source | states |
|---|---|---|
| ProtocolTheorems.ResponsePairing | ClientServerFramework/Client/Client.hpp:122-191 | in every run, with any failures and reconnections and with old sessions still executing, the i-th response handled answers the i-th record accepted from the input (same id, same padding, the result of its own operation), and is the very response, time stamp included, that the session of one connection produced on executing that record and that was handled on that connection |
| Origins.HandledWhereProduced | ClientServerFramework/Server/Session.hpp:119-165 | every handled record was executed on the connection its response was handled on, as the same one in order, and the response handled is the one produced there: none is left over from a dropped connection |
| Origins.RespondsToCurrent | ClientServerFramework/Client/Client.hpp:145-164 | a response about to be handled is the last one produced by the session of the newest connection, for the record under way, and nothing else is on its way there |
| ProtocolTheorems.Conservation | ClientServerFramework/Client/Client.hpp:130-188 | at every interleaving point the records popped followed by the queue are the records pushed, a prefix of those the scraper accepts; a response was handled for each popped record, and for the front one exactly between handling and pop |
| Duplication.BoundedDuplication | ClientServerFramework/Client/Client.hpp:71-102 | every handled record was executed, and executions over all sessions exceed responses handled by at most one more than the exchanges that failed, and by at most the connections opened |
| Duplication.ExecutionsExactly | ClientServerFramework/Server/Session.hpp:137-142 | executions over all sessions are exactly the responses handled plus the sessions that executed a request to which no response was handled on their connection |
| Duplication.ExecutedTwiceExactly | ClientServerFramework/Client/Client.hpp:169-172 | some record was executed twice if and only if the session of a connection executed a request to which no response was handled there, and the session of a later connection has executed one |
| Duplication.ConnectionsAndFailures | ClientServerFramework/Client/Client.hpp:85-101 | no more connections are opened than one and one for each failed exchange |
| Duplication.SessionExecutesSlice | ClientServerFramework/Server/Session.hpp:119-165 | each session executes a contiguous slice of the pushed records starting at the first one unhandled when its connection was opened, and at most one more than are handled from it |
| ProtocolTheorems.CleanExit | ClientServerFramework/Client/Client.hpp:180-190 | when `listen` has returned false, exactly the records pushed before its last look at the queue have been handled and popped, the rest is still queued, and the input is not good |
| Exit.ExitHandlesEverythingExactly | ClientServerFramework/Client/Client.hpp:187 | on any text, the client exits having handled every accepted record if and only if, in the run, no push comes after the last time its exit guard looks at the queue, and the scraper does not hold a record still to be pushed; the records pushed after that look, and no others, are left in the queue |
| Exit.ExitAfterCompleteInput | ClientServerFramework/Client/Client.hpp:187 | on input that is read to its end the scraper holds none, so that the order of the steps decides alone |
| Exit.AtomicGuardExactly | ClientServerFramework/Client/Client.hpp:187 | in runs in which the guard looks at the input at once after the queue, on any text, the client exits having handled every accepted record if and only if the scraper held none when the guard last looked at the input |
| Exit.AtomicGuardHandlesEverything | ClientServerFramework/Client/Client.hpp:187 | in runs in which the guard looks at the input at once after the queue, the client exits having handled every accepted record of an input that is read to its end |
| Completion.CompletesExactly | ClientServerFramework/Client/Client.hpp:71-191 | from every reachable state with the server running and the client not given up, frames that fit and no `keep_alive`, some continuation of the run exits with every accepted record handled, if and only if the client has not yet looked at the queue for the last time, or nothing is left in the queue or held by the scraper |
| ProtocolTheorems.FailedExchangeIsRetried | ClientServerFramework/Client/Client.hpp:169-190 | after an exchange whose failure was not thrown, the queue is not empty, so `listen` returns true and a new connection is opened; only a `listen` whose connection is fine ends the client |
| ProtocolTheorems.FirstUnhandledIsSent | ClientServerFramework/Client/Client.hpp:132-145 | the record under way is always the front of the queue and the first accepted record without a handled response, also after a reconnection |
| ProtocolTheorems.ReconnectsExactly | ClientServerFramework/Client/Client.hpp:148-177 | a failed write leads to a new connection if and only if the error is an abort, a reset or a time-out; a failed read if and only if, besides, no whole header has arrived or the part of the body that has, completed by what an earlier response left in the buffer, decodes; otherwise the client ends |
| ProtocolTheorems.AnyPartOfRequestCanGoOut | ClientServerFramework/Client/Connector.hpp:74-77 | a write can fail with any error after any part of the request has gone out |
| ProtocolTheorems.AnyPartOfResponseCanComeIn | ClientServerFramework/Client/Connector.hpp:76-82 | a read can fail with any error after any part of a response, short of all of it, has come in |
| ProtocolTheorems.AnyPartOfResponseCanGoOut | ClientServerFramework/Server/Session.hpp:148-165 | the session of any connection, lost or not, can fail after any part of its response has gone out, and closes |
| ProtocolTheorems.BadResponseIsRetried | ClientServerFramework/Client/Client.hpp:150-158 | a response that is not marked OK is not handled and removes nothing from the queue, and the connection is opened again |
| ProtocolTheorems.EndsTheClient | ClientServerFramework/Client/Client.hpp:85-102 | a connection that cannot be opened, a request of 2^32 bytes or more, and a response with another padding than the last request end the client |
| ProtocolTheorems.QueueIsNeverEmptyWhenUsed | ClientServerFramework/Client/Client.hpp:132-166 | whatever the scraper pushes in between, front and pop never meet an empty queue, and what is popped is the record that was sent |
| ProtocolTheorems.PaddingAssertionHolds | ClientServerCalculator/TCPClient/ClientActions.hpp:28-47 | in every run the padding of the response about to be handled is the one saved by the last request, so the assertion never fails |
| ProtocolTheorems.NothingInvalidArrives | ClientServerCalculator/TCPServer/ServerAction.hpp:26-42 | in every run the "Invalid operation" exception is unreachable, no whole message fails to decode, and no header is found invalid by either side |
| ProtocolTheorems.ExecutesOnlyWholeRequests | ClientServerFramework/Server/Session.hpp:125-144 | a session executes only when the whole frame has arrived, and what it executes is the record the client wrote on that connection; a write cut short is never executed |
| ProtocolInvariant.StepKeepsInvariant | ClientServerFramework/Client/Client.hpp:71-191 | every step of the scraper, the client, a session or the network keeps the invariant that relates queue, streams, sessions and program counters |
| ProtocolInvariant.RunKeepsInvariant | ClientServerFramework/Client/Client.hpp:71-191 | the invariant holds after every run, of any length and interleaving |
| ProtocolInvariant.OnlyWholeResponsesAreRead | ClientServerFramework/Client/Connector.hpp:76-82 | when the client can read anything at all, it is the whole frame of the response to the last execution of that connection, and nothing follows it |
| ProtocolInvariant.OnlyWholeRequestsAreRead | ClientServerFramework/Server/Session.hpp:125-138 | when a session can read anything at all, it is the whole frame of the record it has to serve next, and nothing follows it |
| Progress.BoundedWork | ClientServerFramework/Client/Client.hpp:130-190 | for any input, the steps of a run other than polls, that is the steps of the client round its loop while its connection is fine and nothing is in the queue, and the tries of the scraper at the end of its input, number at most 17 * (length of the text + 2) + 13 * (exchanges that fail) |
| Progress.StepUsesWork | ClientServerFramework/Client/Client.hpp:85-188 | each step that is not a poll lowers one potential, a failed exchange raises it by at most 12, a poll does not raise it; the guard steps after an exchange count whenever a record is waiting |
| Progress.SessionUsesWork | ClientServerFramework/Server/Session.hpp:98-165 | each step of a session uses up its phase or the one request under way |
| Limits.LastRecordCanBeDropped | ClientServerFramework/Client/Client.hpp:187 | a concrete run in which the two reads of the exit guard enclose a push: the client exits and the last record stays in the queue |
| Limits.LastRecordCanBeMissed | ClientServerFramework/Client/Scraper.hpp:95-98 | a concrete run, with an atomic guard and no push after its look at the queue, in which the client exits before the scraper has pushed a record whose line ended the input |
| Limits.RequestCanBeExecutedTwice | ClientServerFramework/Client/Client.hpp:169-172 | from any state about to write to a receiving session there is a run in which the sessions of two connections both execute the same record |
| Limits.FirstRequest | ClientServerFramework/Client/Client.hpp:71-145 | such a state is reached from the start, for every input with a first record |
| Limits.ResetWithinResponseEndsClient | ClientServerFramework/Shared/Connection/Connection_base.hpp:184-204 | a concrete run in which the connection is reset between the header and the body of a response, and the client ends instead of connecting again, while the server runs on |
| Client.Client.Start | ClientServerFramework/Client/Client.hpp:71-102 | the loop over connections as written, on the shared queue: it leaves exactly the state that the schedule gives, turn by turn, which is that of a run of the machine; the responses handled answer the first records in order, it stops only in the exit state, having handled everything exactly if no push came after its last look at the queue and the scraper holds nothing, and it never ends in between while the schedule goes on |
| Client.OpeningIsFollowed | ClientServerFramework/Client/Client.hpp:85-101 | a connection that opens is followed by a round of `listen` on it, with the queue as it is |
| Client.Client.Listen | ClientServerFramework/Client/Client.hpp:122-191 | `listen` returns true only when a connection has to be opened, false only in the exit state, and otherwise leaves by an exception |
| Client.Client.Round | ClientServerFramework/Client/Client.hpp:130-188 | one round: an exchange if there is a record, then the guard, and the decision to go on, to open another connection or to stop |
| Client.Client.ServeQueue | ClientServerFramework/Client/Client.hpp:132-178 | the part of a round before the guard: nothing if the queue is empty, otherwise one exchange |
| Client.Client.TakeFront | ClientServerFramework/Client/Client.hpp:137-140 | the front record is copied, and the request part of the strategy performed |
| Client.Client.ExchangeFront | ClientServerFramework/Client/Client.hpp:134-177 | front, request, send and the error switch: ends before the exit guard with the right state of the connection, or throws |
| Client.Client.Send | ClientServerFramework/Client/Connector.hpp:68-83 | one write, then one read unless the write failed; the error reported is that of the step that failed |
| Client.Client.WriteRequest | ClientServerFramework/Client/Connector.hpp:74-77 | the write of `send`: on to the read, or an error and the state that `listen` takes after it, or an exception |
| Client.Client.ReadResponse | ClientServerFramework/Client/Connector.hpp:76-82 | the read of `send`: the state that `listen` takes after the response or the error returned, or an exception |
| Client.Client.HandleResponse | ClientServerFramework/Client/Client.hpp:156-167 | the response is handled once, and then its record, which is still the front one, is popped; or the assertion fails |
| Client.Client.ExitGuard | ClientServerFramework/Client/Client.hpp:187 | the guard, with its separate reads of the queue and of the stream state |
| Client.Client.LookAtQueue | ClientServerFramework/Client/Client.hpp:187 | the first part of the guard: the queue is looked at unless the client is kept alive |
| Calculator.EndToEnd | ClientServerCalculator/DataGenerator/DataGenerator.cpp:67-76 | for the printed text of any records: in every run the i-th response handled answers the i-th record that survives printing, and on exit there is one for each exactly if no push came after the last look at the queue |
| Calculator.CalculatorFits | ClientServerCalculator/TCPClient/DataScraper.cpp:13-65 | the calculator's `get_datum` and codec meet everything the framework's theorems rely on |
| Calculator.AssumptionsAreMet | ClientServerFramework/Shared/Connection/Connection_base.hpp:122-130 | a concrete codec, a text archive with the copy-through filter, meets everything the theorems about the machine ask for, on every input and for every client |
| Calculator.ClientReadsByBlockingRead | ClientServerFramework/Shared/Connection/Connection_base.hpp:166-206 | a step in which the client reads is the blocking read on the bytes that have arrived: outcome, rest and data buffer |
| Calculator.ClientFailsByBlockingRead | ClientServerFramework/Shared/Connection/Connection_base.hpp:166-206 | a step in which reading fails is the blocking read on the bytes that had arrived: an exception ends the client, an error goes to the error switch |
| Calculator.SessionReadsByHandlers | ClientServerFramework/Server/Session.hpp:125-144 | a step in which a session receives is a run of the handlers of the asynchronous read, then the strategy |
| Calculator.AcceptedIsScraped | ClientServerFramework/Client/Scraper.hpp:55-86 | the records accepted in a run of the machine are those the scraping loop pushes, and the input is read to its end exactly on newline-terminated text with lines that fit |
| Calculator.PrintedRecordCanBeDropped | ClientServerFramework/Client/Client.hpp:187 | for every printed single record there is a run in which the client exits without having sent it |
| Calculator.UnterminatedRecordCanBeMissed | ClientServerFramework/Client/Scraper.hpp:95-98 | such a run for the line of every record that scrapes, without its newline |
| Calculator.EverythingCanBeHandled | ClientServerFramework/Client/Client.hpp:71-191 | with that codec, on the printed text of any records, there is a run from the start in which the client handles a response for every one that survives printing, and exits |
| Calculator.PrintedRecordCanBeExecutedTwice | ClientServerFramework/Client/Client.hpp:169-172 | for every printed single record that scrapes, with that codec, there is a run from the start in which two sessions execute it |
| Calculator.PrintedRecordCanEndClient | ClientServerFramework/Shared/Connection/Connection_base.hpp:184-204 | and one in which a reset connection ends the client |
| Calculator.ZeroSurvives | ClientServerCalculator/TCPClient/client_data.cpp:10-17 | there are such records |
| Framing.FramingRoundTrip | ClientServerFramework/Shared/Connection/Connection_base.hpp:97-116 | any list of payloads that fit, framed, concatenated, cut into arbitrary chunks and fed to the reader, is delivered exactly, with nothing left over |
| Framing.PrefixSafety | ClientServerFramework/Shared/Connection/Connection_base.hpp:240-315 | on a stream of frames cut off after any byte, exactly the payloads whose frames lie wholly within it are delivered, and no header is found invalid |
| Framing.ChunkingIsIrrelevant | ClientServerFramework/Shared/Connection/Connection_base.hpp:154-163 | the way the bytes are cut into pieces changes nothing |
| Framing.TryReadIsFeed | ClientServerFramework/Shared/Connection/Connection_base.hpp:240-284 | on any bytes at all, taking one whole frame and feeding byte by byte agree on delivery, waiting and invalid headers |
| Framing.TryReadPrefix | ClientServerFramework/Shared/Connection/Connection_base.hpp:168-185 | on a prefix of a frame nothing is read until the frame is complete, and then exactly its payload |
| Framing.PrefixParts | ClientServerFramework/Shared/Connection/Connection_base.hpp:175-185 | once eight bytes of a frame have arrived they give the length of its payload, and the rest is its beginning |
| Framing.TryReadFrame | ClientServerFramework/Shared/Connection/Connection_base.hpp:168-185 | a frame in front of any bytes is read off whole, and leaves those bytes |
| Framing.FrameOf | ClientServerFramework/Shared/Connection/Connection_base.hpp:97-116 | a frame exists exactly for payloads shorter than 16^8 bytes and is eight bytes longer |
| Framing.FrameText | ClientServerFramework/Shared/Connection/Connection_base.hpp:97-116 | the bytes of a frame, by their codes: spaces, then digits 0 to 9 and a to f that denote the length without leading zeros, eight in all, then the payload |
| HexHeader.HeaderPrintsExactly | ClientServerFramework/Shared/Connection/Connection_base.hpp:97-108 | a header is printed if and only if the size is below 16^8 |
| HexHeader.HeaderText | ClientServerFramework/Shared/Connection/Connection_base.hpp:99-101 | the eight characters printed for a size, by their codes: right-justified, filled with spaces, in lower case, without leading zeros |
| HexHeader.HeaderRoundTrip | ClientServerFramework/Shared/Connection/Connection_base.hpp:267-284 | reading a printed header gives the size back |
| HexHeader.ParsedSizeBound | ClientServerFramework/Shared/Connection/Connection_base.hpp:272-283 | for any eight characters that parse, the size is below 16^8 if and only if the field has no minus sign or only zeros as digits; otherwise it is within 16^8 of 2^64 |
| HexHeader.HeaderMeans | ClientServerFramework/Shared/Connection/Connection_base.hpp:272-283 | what any header means, by the codes of its characters: blanks, a sign, "0x", digits of either case and what follows them; refused without digits, negated modulo 2^64 with a minus sign |
| HexHeader.MinusOneIsHuge | ClientServerFramework/Shared/Connection/Connection_base.hpp:272-283 | a header that announces 2^64 - 1 bytes |
| HexHeader.HexLength | ClientServerFramework/Shared/Connection/Connection_base.hpp:99-101 | the hexadecimal text of n has at most k characters if and only if n is below 16^k |
| HexHeader.HexDigits | ClientServerFramework/Shared/Connection/Connection_base.hpp:99-100 | the characters printed are hexadecimal digits and denote n |
| Connections.FormsOfReadingAgreeExactly | ClientServerFramework/Shared/Connection/Connection_base.hpp:154-206 | on every input, blocking and asynchronous reading report the same error, length, value, rest and buffer if and only if the header is not invalid and a body cut short does not leave undecodable bytes in the buffer |
| Connections.InvalidHeaderIsHidden | ClientServerFramework/Shared/Connection/Connection_base.hpp:181-182 | a header on which one form reports success and the other an error |
| Connections.CutBodyIsThrown | ClientServerFramework/Shared/Connection/Connection_base.hpp:184-204 | a cut on which one form throws and the other reports an error |
| Calculator.FormsDifferOnCutBody | ClientServerFramework/Shared/Connection/Connection_base.hpp:184-204 | with that codec, the header of a five-byte body that never comes makes one form throw and the other report the error |
| Connections.WrittenIsRead | ClientServerFramework/Shared/Connection/Connection_base.hpp:168-206 | either form of reading returns what was written with the length of its frame, and leaves the bytes after it |
| Connections.Connection.Write | ClientServerFramework/Shared/Connection/Connection_base.hpp:119-152 | sends the frame of the packed value, or what the socket takes of it and its error; an oversize value sends nothing and returns the number of digits of its length |
| Connections.Connection.AsyncWrite | ClientServerFramework/Shared/Connection/Connection_base.hpp:82-117 | the same bytes, buffers, error and length as the blocking form, except the length reported for an oversize value |
| Connections.Connection.Read | ClientServerFramework/Shared/Connection/Connection_base.hpp:166-206 | the blocking read refines its specification on every input, stale buffer and socket error |
| Connections.Connection.RunAsyncRead | ClientServerFramework/Shared/Connection/Connection_base.hpp:154-163 | the chain of handlers, composed, refines its specification on every input |
| Connections.Connection.HandleReadHeader | ClientServerFramework/Shared/Connection/Connection_base.hpp:240-264 | error, invalid header, or a pending read of exactly the size the header says |
| Connections.Connection.HandleReadData | ClientServerFramework/Shared/Connection/Connection_base.hpp:286-315 | error with the total length, or the decoded value, or the exception of the archive |
| Connections.Connection.ReadHeader | ClientServerFramework/Shared/Connection/Connection_base.hpp:175-178 | eight bytes into the header buffer, or what there is and the error |
| Connections.Connection.ReadBody | ClientServerFramework/Shared/Connection/Connection_base.hpp:184-185 | the resized buffer, filled as far as bytes arrive |
| Connections.Socket.Read | ClientServerFramework/Shared/IO/UnsecuredIO.hpp:110-122 | exactly the bytes asked for, or all there are and the error |
| Connections.Socket.Write | ClientServerFramework/Shared/IO/UnsecuredIO.hpp:103-108 | everything, or as much as can be sent and the error |
| Messages.UnpackInverts | ClientServerFramework/Shared/Connection/Connection_base.hpp:122-130 | what passes an inverting archive and an inverting filter comes back |
| Messages.DefaultFilterInverts | ClientServerFramework/Shared/IO/DefaultFilter.hpp:19-30 | the copy-through filter copies in both directions, and so inverts |
| TextArchive.TextArchivesInvert | ClientServerCalculator/TCPClient/client_data.hpp:76-84 | archives of the fields in the order the messages serialize them take back every record and every response, infinities and NaNs included |
| Sessions.AsyncServer.constructor | ClientServerFramework/Server/AsyncServer.hpp:31-40 | one session waits to be accepted |
| Sessions.AsyncServer.DoAccept | ClientServerFramework/Server/AsyncServer.hpp:42-62 | one more session with the next id, which is the only one waiting |
| Sessions.AsyncServer.HandleAccept | ClientServerFramework/Server/AsyncServer.hpp:52-61 | after success or failure, exactly the newest session waits; the accepted one is started, or left alone |
| Sessions.AsyncServer.Complete | ClientServerFramework/Server/AsyncServer.hpp:42-62 | one turn of the event loop leads to exactly what the specification on values says, and keeps ids equal to creation order, exactly one session waiting, at most one pending operation a session; no response or outbound buffer changes while its write is pending, and no other session changes |
| Sessions.RequestIsAnswered | ClientServerFramework/Server/Session.hpp:125-144 | a request that is received whole, decodes, has a valid operation and an answer that fits leads to the write of its own answer, with the time it was computed |
| Sessions.CompletionEffects | ClientServerFramework/Server/Session.hpp:98-165 | what every other completion leads to: the operation that is started next or none; the server stops exactly when an initialization fails, a request does not decode or has no valid operation; no other session changes |
| Sessions.MachineFollowsHandlers | ClientServerFramework/Server/Session.hpp:98-165 | every step of a session in the machine does what the handler of that completion does |
| Sessions.AsyncServer.Run | ClientServerFramework/Server/AsyncServer.hpp:42-62 | over any list of completions, the server ends as the specification on values says, each possible one having been taken; no session is lost or reordered, and as long as the write of a session has not completed, it stays pending with the response and the bytes that it was started with |
| Sessions.Session.constructor | ClientServerFramework/Server/Session.hpp:82-92 | the id it was given, and no operation yet |
| Sessions.Session.Start | ClientServerFramework/Server/Session.hpp:54-68 | only initialization follows an accept |
| Sessions.Session.HandleInitialize | ClientServerFramework/Server/Session.hpp:98-116 | the first read follows, or an exception |
| Sessions.Session.HandleRead | ClientServerFramework/Server/Session.hpp:119-145 | after a request the write of its own answer is pending, in the phase the machine of steps gives; an error closes the session quietly; a refused request throws |
| Sessions.Session.HandleWrite | ClientServerFramework/Server/Session.hpp:148-165 | back to reading, or closed |
| Sessions.Session.Handle | ClientServerFramework/Server/Session.hpp:98-165 | the handlers do what the specification on values says, exceptions included |
| Sessions.AsyncServer.HandleOperation | ClientServerFramework/Server/Session.hpp:98-165 | the handler of an operation changes its own session as specified, whether the server stops, and nothing else |
| Sessions.AsyncServer.Turn | ClientServerFramework/Server/AsyncServer.hpp:42-62 | every completion that can come is taken, and leads to what the specification on values says; one that cannot changes nothing |
| SafeQueue.Queue.Pop | ClientServerFramework/Shared/Container/SafeQueue.hpp:43-47 | removes the oldest element and nothing else; the client thread works on this queue |
| SafeQueue.Queue.Push | ClientServerFramework/Shared/Container/SafeQueue.hpp:49-53 | appends, and changes nothing else |
| Records.ServeAnswers | ClientServerCalculator/TCPServer/ServerAction.hpp:26-53 | the strategy answers exactly the records that have an answer, with id and padding echoed |
| ScrapingLaws.ScrapeIsLineByLine | ClientServerFramework/Client/Scraper.hpp:55-86 | on any text, the loop pushes what the lines contribute one by one, blank and bad lines contributing nothing, up to the first line that is too long |
| ScrapingLaws.ScrapingEndsExactly | ClientServerFramework/Client/Scraper.hpp:57 | for all texts: the loop ends at the end of the text if and only if it is newline-terminated (or empty) with lines of at most 999 characters; it spins if and only if such a text lacks its last newline; it is stopped early if and only if a line is too long |
| ScrapingLaws.LoopEndsExactly | ClientServerFramework/Client/Scraper.hpp:55-86 | for every text: some number of rounds ends the loop if and only if the text is newline-terminated or empty or has a line that is too long; and any number of rounds above its length pushes what its lines contribute |
| ScrapingLaws.LongLineStops | ClientServerCalculator/TCPClient/DataScraper.cpp:25 | after a line of a thousand characters nothing is scraped, whatever follows |
| RoundTrip.UnterminatedLineSpins | ClientServerFramework/Client/Scraper.hpp:57 | on a printed line without its newline no number of rounds ends the loop |
| ScrapingLaws.ScrapeConcatenation | ClientServerFramework/Client/Scraper.hpp:55-86 | scraping one complete text followed by another finds the records of the first, then those of the second, and ends as the second does |
| ScrapingLaws.ScrapeOneLine | ClientServerCalculator/TCPClient/DataScraper.cpp:23-32 | one line is taken, empty or not, and the loop goes on with the rest |
| ScrapingLaws.GetLineTakes | ClientServerCalculator/TCPClient/DataScraper.cpp:25 | what `getline` takes, leaves and flags, for a first line of any length, with a newline or without |
| ScrapingLaws.CStringIsPrefix | ClientServerCalculator/TCPClient/DataScraper.cpp:35 | the string in the buffer is what comes before its first NUL |
| Scraping.LineEndIsFirst | ClientServerCalculator/TCPClient/DataScraper.cpp:25 | a line ends at the first newline |
| Scraping.Operator | ClientServerCalculator/TCPClient/DataScraper.cpp:43-60 | the character accepted for an operation is the one it is printed as, and every other character is refused |
| Numerals.LineMeans | ClientServerCalculator/TCPClient/DataScraper.cpp:34-64 | what a line with all four items means, by the codes of its characters: any blanks, an id and operands with or without sign, point, fraction and power of ten, an operator; a record with those numbers and + for ADD, - for SUBTRACT, * for MULTIPLY, / for DIVIDE, or bad data exactly when the id does not fit 32 bits, an operand overflows or the operator is another character |
| Numerals.IdOnlyMeans | ClientServerCalculator/TCPClient/DataScraper.hpp:24-34 | a line that ends right after its id leaves the other items as memory had them |
| Numerals.OneOperandMeans | ClientServerCalculator/TCPClient/DataScraper.hpp:24-34 | a line that ends right after its first operand, likewise |
| Numerals.NumeralIsRead | ClientServerCalculator/TCPClient/DataScraper.hpp:27-28 | a numeral followed by a blank, an operator or nothing is taken up whole as the number its signs and digits denote |
| Numerals.IntegerIsRead | ClientServerCalculator/TCPClient/DataScraper.hpp:27-28 | an integer with or without sign is taken up to the first character that is no digit, as the number it denotes |
| Numerals.NoDigitsIsRefused | ClientServerCalculator/TCPClient/DataScraper.hpp:27-31 | a field without a digit is refused |
| Numerals.NoPowerIsRefused | ClientServerCalculator/TCPClient/DataScraper.hpp:27-31 | a numeral whose power of ten has no digits is refused |
| Scraper.InputStream.GetLineInto | ClientServerCalculator/TCPClient/DataScraper.cpp:25 | `getline` character by character into the buffer refines the specification on lines |
| Scraper.ItemStream.GetInt | ClientServerCalculator/TCPClient/DataScraper.hpp:24-34 | an integer item: untouched at eof without fail, refused, or extracted, with the stream flags that follow |
| Scraper.ItemStream.GetDouble | ClientServerCalculator/TCPClient/DataScraper.hpp:24-34 | the same for a double |
| Scraper.ItemStream.GetChar | ClientServerCalculator/TCPClient/DataScraper.hpp:24-34 | the same for a character |
| Scraper.DataScraper.ParseItems | ClientServerCalculator/TCPClient/DataScraper.cpp:34-64 | extracting the items one by one refines the parser of a line, also on lines that end early |
| Scraper.DataScraper.ReadDatum | ClientServerCalculator/TCPClient/DataScraper.cpp:13-65 | `get_datum` with its buffer refines the specification, including buffers that start with a NUL |
| Scraper.DataScraper.ScrapeOnce | ClientServerFramework/Client/Scraper.hpp:61-78 | one round pushes the record found, if any, and nothing else |
| Scraper.DataScraper.Start | ClientServerFramework/Client/Scraper.hpp:55-86 | for any number of rounds that the thread gets, the loop pushes what so many rounds of the specification push, and ends only when the stream has failed |
| Scraper.CStringOfBuffer | ClientServerCalculator/TCPClient/DataScraper.cpp:35 | the buffer as a C string is the line read, up to its first NUL |
| RoundTrip.PrintedTextIsScrapedBack | ClientServerCalculator/DataGenerator/DataGenerator.cpp:67-76 | scraping the printed text of any records runs to its end and pushes, in order, exactly those with a valid operation and readable operands, id and operation unchanged, the client id stamped in |
| RoundTrip.RoundTripExactly | ClientServerCalculator/TCPClient/client_data.cpp:10-17 | the round trip keeps every valid record unchanged if and only if each of their operands is the nearest double to some number of at most fifteen decimal digits |
| RoundTrip.IntegerRoundTrip | ClientServerCalculator/TCPClient/client_data.cpp:10-17 | records with integer operands below 10^15 in magnitude come back unchanged, NOP records dropped without disturbing their neighbours |
| RoundTrip.SixteenDigitsDoNotComeBack | ClientServerCalculator/TCPClient/client_data.cpp:14-15 | a record with the operand 2^53 - 1 comes back with 2^53 - 2 |
| Doubles.SurvivesExactly | ClientServerCalculator/TCPClient/client_data.cpp:14-15 | a double comes back from its text with fifteen digits if and only if it is finite and the nearest double to some number of at most fifteen decimal digits, whichever that is |
| Rounding.DigitsRoundBack | ClientServerCalculator/TCPClient/client_data.cpp:14-15 | if any fifteen decimal digits round to a number of 53 binary digits, normal or subnormal, that number's own first fifteen digits round back to it |
| Rounding.DecimalIsNearest | ClientServerCalculator/TCPClient/client_data.cpp:14-15 | no number of fifteen decimal digits is nearer than the one printed, and of two the even one is |
| Doubles.PrintedDoubleField | ClientServerCalculator/TCPClient/client_data.cpp:14-15 | the text of a finite double, plain, with a point or with an exponent, is one numeric field with its sign and the value of its first fifteen digits |
| Characters.PrintedText | ClientServerCalculator/TCPClient/client_data.cpp:14-15 | the text of a double, by the codes of its characters: its sign and the number of fifteen digits nearest to it, without trailing zeros after a point, with an exponent of at least two digits exactly when it is below -4 or at least 15 |
| Characters.PrintedInteger | ClientServerCalculator/TCPClient/client_data.cpp:14-15 | an integer below 10^15 is printed as its sign and its digits |
| Characters.PrintedWords | ClientServerCalculator/TCPClient/client_data.cpp:14-15 | zeros, infinities and NaNs are printed as 0, inf and nan, with a minus sign if they have one |
| Characters.DigitsText | ClientServerCalculator/TCPClient/client_data.cpp:13 | the digits printed for a number denote it, by their codes, without leading zeros |
| Characters.IntegerText | ClientServerCalculator/TCPClient/client_data.cpp:13 | an id is printed as its digits, after a minus sign exactly if it is negative |
| Characters.OperationSigns | ClientServerCalculator/TCPClient/client_data.hpp:41-58 | the text of each operation, by its characters |
| Doubles.PrintedWord | ClientServerCalculator/TCPClient/client_data.cpp:14-15 | an infinity or a NaN prints as a word that is never read as a double |
| Doubles.PrintedLength | ClientServerCalculator/TCPClient/client_data.cpp:14-15 | no double needs more than 33 characters |
| Doubles.DoubleIsFixed | ClientServerCalculator/TCPClient/DataScraper.hpp:27-28 | converting the exact value of a double gives the double |
| Doubles.ToDoubleIsNearest | ClientServerCalculator/TCPClient/DataScraper.hpp:27-28 | no double is nearer to a number than the one it is converted to, which has its sign; of two that are as near, the one with an even significand is chosen |
| Doubles.OverflowExactly | ClientServerCalculator/TCPClient/DataScraper.hpp:27-28 | conversion fails by overflow exactly from 2^1024 - 2^970 on |
| Doubles.SmallIntegersSurvive | ClientServerCalculator/TCPClient/client_data.cpp:14-15 | integers below 10^15 in magnitude survive, with their sign, zeros included |
| Doubles.SixteenDigitsAreLost | ClientServerCalculator/TCPClient/client_data.cpp:14-15 | 2^53 - 1 reads back as 2^53 - 2 |
| RoundTrip.SurvivorsExactly | ClientServerCalculator/TCPClient/client_data.cpp:14-15 | the records that come back are the valid ones unchanged if and only if all operands of those are such doubles |
| RoundTrip.PrintedLineParses | ClientServerCalculator/TCPClient/DataScraper.cpp:34-64 | a printed line parses to its record, or is bad data exactly for NOP and for an operand that is infinite, NaN or overflows on reading |
| RoundTrip.PrintedLineIsPlain | ClientServerCalculator/TCPClient/client_data.cpp:10-17 | a printed line fits the buffer and holds no newline or NUL |
| RoundTrip.PrintedLineWords | ClientServerCalculator/TCPClient/client_data.cpp:12-16 | between the spaces of a printed line there are the id, the first operand, the operation and the second operand |
| Numbers.PrintedIntField | ClientServerCalculator/TCPClient/client_data.cpp:13 | a printed integer is one complete numeric field that denotes it |
| Numbers.DigitsDenote | ClientServerCalculator/TCPClient/client_data.cpp:13 | printed digits denote the number printed |
| Numbers.FieldEndsAtBlank | ClientServerCalculator/TCPClient/DataScraper.hpp:27-28 | a numeric field followed by a blank is accumulated as it would be alone |
| Numbers.Int32Length | ClientServerCalculator/TCPClient/client_data.hpp:69 | a printed id has at most eleven characters |

## Left out

- Scraper.DataScraper.Start: the number of rounds that the thread gets is given from outside.
- Client.Client.Start: one read and one write of the client are one step each, because no other thread uses the client's end of a connection; the schedule given to it is finite, so it can run out.
- Sessions.AsyncServer.Run: the completions and payloads are given from outside; which bytes a session reads is the subject of `Protocol`.
- Connections.FormsOfReadingAgreeExactly: a `resize` that fails for want of memory, and the address of the first byte of an empty body, which is undefined in the source's filters, are not modelled.
- Doubles.SurvivesExactly: the payload of a NaN is not modelled, and a field that is too small converts to the nearest double without failing.
- The four operations on doubles are uninterpreted.
- The formats of Boost's archives and of zlib: any pairs of functions that invert.
- SSL contexts, certificates and handshakes: initialization succeeds or fails.
- Sockets, resolver and the event loop of Asio: `open` succeeds or fails, and completions arrive one at a time. The connector's reuse of one socket object for the next connection is taken as a fresh connection with the old data buffer.
- A handler that throws ends the server, as it leaves the event loop; restarting the server is not modelled.
- `input_stream().bad()` and other device errors of the text stream.
- The memory model of C++: each queue operation and each look at the state of the stream is atomic, although the source does not lock the latter.
- One call of `get_datum` is one atomic step, so a look at the stream's state by the client falls before or after it.
- Other clients of the same server: their connections share nothing with this one's but the accept loop.
- Random generation, logging, console output, command lines and build files.
