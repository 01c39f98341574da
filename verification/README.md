# A verified model of smtp-gateway

smtp-gateway is an SMTP server library with one handler callback per transaction phase. This
project models its protocol core in Dafny and proves what the core is for:

- a connection is served by two processes, a reader that parses commands ahead into a queue and
  a worker that handles them, which share one socket reader; for every input, handler and
  interleaving they behave like a server that reads one command, handles it, and only then
  reads the next (`Pipeline`, `Refinement`);
- exactly when a shutdown leaves a beginning of that sequential run (`DroppedLine`);
- in every session each message reaches the handler with the envelope that was agreed for it,
  within the size limit, made of its own bytes only, and is recorded exactly when the handler
  takes it (`Invariants`, `History`, `Runs`, `Phases`);
- each command is handed on and answered exactly when and as the program promises, the handler's
  answer reaches the client unchanged, and what a session holds can be told from its commands and
  replies alone (`Answers`, `Journal`, `Parameters`);
- lines, dot-stuffed bodies and BDAT chunks are framed exactly, whatever the fragmentation and
  chunking (`Lines`, `Body`, `Stuffing`, `Chunking`);
- replies decode uniquely for the replay client (`Replies`, `Framing`);
- a message that a session delivers comes through its postcat file, the replay client and a
  second server unchanged if and only if a condition on its bytes holds (`Postcat`, `PostcatRoundTrip`, `Scripts`, `Replay`);
- admission slots and the wait group are accounted for in every run (`Admission`).

## How it is built

`Session` is the session machine as a function: `Exec` handles one command, `Serve` is the
sequential server. `Worker` is the same machine as the program has it, an object whose fields
are updated in place and which writes its bytes as it goes; each of its methods is proved to do
what `Session` says. The properties are proved about `Session`, so they hold of both.

| file | part of the program |
|---|---|
| `Text.dfy` | the string helpers taken from the Go library |
| `Lines.dfy`, `Body.dfy` | reading lines, raw bytes and dot-stuffed bodies |
| `Commands.dfy` | command lines and their arguments |
| `Session.dfy`, `Worker.dfy` | the worker: as a function, and as a program |
| `Answers.dfy`, `Parameters.dfy`, `Journal.dfy` | what commands answer, and what they leave behind |
| `Invariants.dfy`, `History.dfy`, `Runs.dfy`, `Phases.dfy`, `Chunking.dfy` | what sessions keep |
| `Pipeline.dfy`, `Refinement.dfy`, `DroppedLine.dfy` | reader and worker as a step system |
| `Replies.dfy`, `Framing.dfy` | replies as bytes, and the client's reply reader |
| `Stuffing.dfy`, `Scripts.dfy`, `Replay.dfy` | the replay client and the way round |
| `Postcat.dfy`, `PostcatRoundTrip.dfy` | postcat files |
| `Admission.dfy` | `Serve` and `Shutdown` |

`dafny verify dfyconfig.toml` checks everything.

## Assumptions

- A byte is a Dafny `char`; no statement depends on an upper bound of bytes. White space and
  case folding are those of ASCII, in place of Go's Unicode `TrimSpace`, `ToUpper`, `EqualFold`
  and `Fields`. `int` is 64 bits wide; the one place where that matters, the BDAT limit check,
  wraps around explicitly.
- The bytes of a connection arrive in bursts. At the end of a burst one read fails, for whatever
  reason, and the bytes of the unfinished line or chunk before it are lost; after the last burst
  every read fails. All theorems hold for every list of bursts.
- The handler is any function from the callbacks of the session so far, the present one last, to
  a response or nil, and does not change the transaction it is shown.
- A successful STARTTLS handshake replaces the stream by another arbitrary one; a failed one
  closes the connection. Which of the two happens is a parameter.
- RFC 3339 time is a parameter: text without CR or LF (section 5.6 of RFC 3339) and a function
  that reads it back.
- A configured size limit leaves room for one 64 MiB chunk in 64 bits (`Representable`).

## Where the code and its documents differ

The model follows the code. C2, T4, P9 and P17 are clauses of the repository's specification.

- Clause C2, and docs/architecture.md:55, let only the reader goroutine read from the socket. The
  worker reads from it too, during DATA, BDAT and STARTTLS; that the two never do so at once is
  `Pipeline.HandoffSafety`.
- The takeover diagrams of docs/architecture.md show the final reply before the resume signal.
  The deferred signals come first (smtp.go:501, smtp.go:631, smtp.go:746), so the reader can
  already be reading, and queueing, while the reply is written. `Refinement` allows for this.
- docs/architecture.md and docs/handler-guide.md return to the initial phase after a successful
  BDAT LAST; the code goes to the greeted phase, after every LAST and after every failed BDAT
  (smtp.go:208-218). `Phases.ServeAlike` shows that the two phases cannot be told apart.
- docs/architecture.md tracks a `gotHelo` flag; the code has none, a non-empty `Helo` serves.
- Clause P17 promises that an over-long line is answered with 500. When the reader notices a
  shutdown while it holds such a line, it discards the line and reads on (smtp.go:275-281),
  whereas for every other command it stops. A later command can then still be answered, in the
  wrong place. `DroppedLine.ShutdownIsPrefixIff` says exactly when, and
  `DroppedLine.ShutdownIsPrefixInBytesIff` says it of the bytes that reach the client.
- Clause P9 promises that BDAT reads exactly its size. A size over 64 MiB that passes the limit
  check, because the limit is larger or the addition wraps, is refused with none of the chunk
  consumed (smtp.go:709-720). `Chunking.BdatFraming` and `Chunking.LimitCheckMeans` say exactly
  when; the largest size that can be declared is such a size in every open sequence
  (`Chunking.LargestIsLeftUnread`).
- Clause T4 promises that every recipient is accepted or rejected. One beyond `MaxRecipients` is
  listed and is neither (smtp.go:594-598; `Invariants.OneTooMany`), and the clause holds if and
  only if no more than that are listed (`Runs.RecipientsRecordedAlways`).

## Model

| member | source | states |
|---|---|---|
| Lines.BufReader.ReadLine | smtp.go:1006-1039 | for every buffer size and split into fragments: the bytes up to the first LF less one optional CR, too long exactly beyond 65536 of them, consumed exactly through the LF, never more than 65538 bytes held |
| Lines.ReadsTerminatedLine | smtp.go:1006-1039 | a CRLF line in front of any bytes is read back, up to the limit, and the bytes behind it are untouched |
| Lines.ReadsBareLine | smtp.go:1006-1039 | so is a line that ends with a bare LF, up to 65536 bytes |
| Lines.CutOffLine | smtp.go:1025-1031 | a line whose LF does not arrive is no line |
| Body.ReadDotUnstuffed | smtp.go:335-393 | the loop with its two ways of draining computes the outcome of the body read and leaves the stream at the same byte, on every stream |
| Body.StopsAtDot | smtp.go:335-393 | whatever lines come first, the read stops immediately after the first line that is a single dot, on success, after over-long lines and after an overflow alike |
| Body.CutOffBody | smtp.go:346-356 | a body whose read fails before the terminator is never taken, whatever has arrived: the read is broken, or was too large before |
| Body.DeliveredWhole | smtp.go:335-393 | a body that is delivered consists of all lines before a line that is a single dot, which has arrived, and the stream goes on right behind it |
| Body.FaultMeaning | smtp.go:335-393 | the error reported is decided by whichever of over-long line and overflow ends the longest acceptable run of lines; there is none exactly when all lines are acceptable |
| Body.BodyWithinLimit | smtp.go:372-389 | a body that is read successfully is within the size limit |
| Stuffing.SendBody | cmd/postcat-replay/main.go:155-176 | the client's loop sends the stuffed lines of the message, split at LF and CRLF, and the terminating dot |
| Stuffing.NormalisedLines | cmd/postcat-replay/main.go:156-163 | replacing CRLF, splitting at LF and dropping an empty last piece yields exactly the lines of the message |
| Stuffing.DotStuffingRoundTrip | smtp.go:335-393 | reading back what the client sends gives the CRLF-canonical form if and only if stuffed lines and size are within the limits, and always stops right behind the terminator |
| Stuffing.CanonicalFixpoint | cmd/postcat-replay/main.go:152-176 | a message is its own canonical form if and only if every LF follows a CR and it ends with LF |
| Stuffing.DeliveredBody | smtp.go:335-393 | every body the server can deliver is canonical, within the limit, and has lines that fit again when stuffed, including lines at the limit |
| Stuffing.ResendIsIdentity | cmd/postcat-replay/main.go:155-176 | on every body the server can deliver, sending and reading it again is the identity |
| Commands.ScanControl | smtp.go:1066-1074 | finds a control character other than tab if and only if there is one |
| Commands.CheckDomain | smtp.go:413-424 | accepts exactly the domains of at most 255 bytes without control characters |
| Commands.CollectParams | smtp.go:868-875 | the loop builds the map in which a later parameter overrides an earlier one with the same key |
| Commands.ReadMailFrom | smtp.go:841-877 | the step-by-step parser agrees with the specification on every argument, malformed ones included |
| Session.Scan8Bit | smtp.go:1077-1084 | finds a byte over 127 if and only if there is one |
| Session.ExecNet | smtp.go:137-239 | only DATA, BDAT and STARTTLS touch the connection's bytes, no command adds any, and exactly QUIT ends a session |
| Invariants.ReadCmdParsed | smtp.go:841-877 | every MAIL that parses has a valid reverse path without `>`, and every BDAT a size in 64 bits |
| Invariants.AccountedGrows | smtp.go:594-616 | after one more recipient, the recipients up to the limit are still an order-preserving merge of the accepted and the rejected ones, whichever way the handler answers |
| Invariants.RecipientsRecorded | smtp.go:594-616 | accepted and rejected recipients together are as many as all recipients if and only if these are within the limit, and otherwise as many as the limit |
| Invariants.OneTooMany | smtp.go:594-598 | a recipient beyond the limit is listed, and neither accepted nor rejected |
| Invariants.ChunkWithinLimit | smtp.go:791-803 | limit check and chunk cap together bound the buffer even where the 64-bit addition wraps |
| Invariants.ExecKeepsInv | smtp.go:137-239 | every command keeps: an open BDAT sequence has accepted recipients; otherwise the buffer is empty; from MAIL on there is a greeting, and TLS when required; before RCPT the lists are empty; TLS agrees with the connection; the buffer is within the limit; recipients are accounted for |
| Invariants.ExecEvolves | smtp.go:137-239 | histories only grow, TLS is never lost and only gained by STARTTLS, and the greeting is forgotten only when TLS is gained |
| Runs.EveryStep | smtp.go:120-247 | a property of the session that every command keeps holds before and after every command of every run |
| Runs.CutOffCommand | smtp.go:269-287 | a command line that is cut off is not handled and ends the session as it is |
| Runs.EveryStepGood | smtp.go:120-247 | in every session the invariant and the agreement with the history hold before and after every command |
| Runs.SessionHistory | smtp.go:139-218 | every Data callback of a session carries exactly the sender, parameters and recipients of the last MAIL and the RCPTs answered 250 since, and the postcat writes are exactly the Data callbacks answered 250, in order |
| Runs.FreshMeans | smtp.go:536-616 | a fresh envelope means an accepted MAIL after the last Data callback and an accepted RCPT after that |
| Runs.DataSeparated | smtp.go:197-218 | between any two Data callbacks lie an accepted MAIL and, after it, an accepted RCPT |
| Runs.BufferStep | smtp.go:139-231 | the buffer grows by exactly the chunk that a BDAT answers 250, stays under NOOP and QUIT, and is emptied by every other command |
| Runs.RecipientsRecordedAlways | smtp.go:581-616 | before and after every command of every session, every recipient is accepted or rejected if and only if their number is within the limit |
| Runs.CallHasStep | smtp.go:120-247 | every callback of a session is made by one of its commands, which makes no other |
| Runs.DataHasStep | smtp.go:618-833 | every Data callback of a session is made by one of its commands, about that command's transaction |
| Runs.BodyProvenance | smtp.go:618-833 | every byte of the body of every Data callback comes from the command that makes it or the chunks of the same BDAT sequence, in order; none from an abandoned or earlier transaction |
| Phases.ExecAlike | smtp.go:44-49 | sessions that differ only in which phase before MAIL they are in cannot be told apart by any command |
| Phases.ServeAlike | smtp.go:44-49 | nor by any later input: same callbacks, replies, records and unread bytes |
| Phases.GreetingActsAsReset | smtp.go:163-180 | an accepted greeting outside a BDAT sequence acts from then on like RSET with the new name; one that is not accepted changes nothing |
| Phases.ServeAfter | smtp.go:120-247 | what a session does never depends on the replies it has given |
| Answers.EveryAnswerPassedOn | smtp.go:241-246 | in every run every answer of the handler, or 503 for none, is the reply to the command that asked, except that an accepted greeting has the server's text |
| Answers.DataAnswered | smtp.go:675-683 | every Data callback of a session is answered to its command, with 250 if and only if the handler took the message |
| Answers.AcknowledgedIffTaken | smtp.go:618-833 | DATA and BDAT LAST are answered 250 if and only if the handler was asked about a message and took it |
| Answers.RsetClears | smtp.go:219-224 | after RSET, in every session, nothing is left of the transaction and MAIL has to come next; greeting, TLS and callbacks are as before |
| Answers.SequenceBroken | smtp.go:139-160 | whatever is not allowed in an open BDAT sequence ends the transaction, with 503, or 500 for an over-long line |
| Answers.NothingChanges | smtp.go:225-238 | NOOP, HELP, VRFY, EXPN, unknown commands and over-long lines change nothing, and QUIT only ends the session |
| Answers.GreetingAnswers | smtp.go:430-486 | a greeting is handed on if and only if its argument has 1 to 255 bytes without control characters; accepted, it starts a blank transaction; otherwise it changes nothing |
| Answers.EhloOffers | smtp.go:459-472 | the extensions offered, each once, with STARTTLS exactly when it is configured and TLS not active, and the size limit exactly when there is one |
| Answers.StartTlsAnswers | smtp.go:496-534 | the refusals of STARTTLS; and after a handshake the new stream and nothing kept, the greeting included |
| Answers.MailAnswers | smtp.go:536-579 | MAIL is handed on if and only if nothing bars it, it parses and its size is admitted; the code of every refusal |
| Answers.RcptAnswers | smtp.go:581-616 | RCPT is handed on if and only if a MAIL is open and the recipient is good and within the limit; the code of every refusal, and where the recipient is recorded with which answer |
| Answers.DataAnswers | smtp.go:618-684 | DATA ends the transaction on every path; its body is handed on if and only if it was read whole and is 7-bit or announced; the code of every refusal |
| Answers.CutOffData | smtp.go:643-656 | DATA without its terminator is answered 451, or 552 after an overflow, without a callback |
| Answers.DataHandsOverWhole | smtp.go:618-684 | a DATA that makes a callback hands over all unstuffed lines before a terminator that has arrived |
| Answers.BdatAnswers | smtp.go:734-834 | only a chunk that passes the barriers and the limit, is within 64 MiB and has arrived whole is taken; a last one is handed on with all before it; every other BDAT ends the transaction; the code of every refusal |
| Answers.MalformedBdat | smtp.go:776-780 | a BDAT without a proper size takes nothing from the stream and ends the transaction |
| Parameters.UpperMeans | smtp.go:34-41 | case folding ignores letter case and nothing else |
| Parameters.SplitsAnyLine | smtp.go:34-41 | verb in any case, argument, and any white space around and between them |
| Parameters.SplitsAnyWord | smtp.go:34-41 | the same without an argument |
| Parameters.VerbTable | smtp.go:162-238 | which command each verb stands for, in both directions |
| Parameters.SignedNumbers | smtp.go:561-565 | numbers with and without a sign, in and out of the 64-bit range |
| Parameters.NotANumber | smtp.go:561-565 | anything but digits after an optional sign is no number |
| Parameters.MailReads | smtp.go:841-877 | sender and parameters of MAIL are read back: keys in capitals, exact values, the last of each key, keywords without value |
| Parameters.MailHasForm | smtp.go:841-877 | an argument of MAIL that parses has the form of one: keyword, brackets, a good address |
| Parameters.MailFormParses | smtp.go:841-877 | and every argument of that form parses to its sender |
| Parameters.DeclaredSizeDecides | smtp.go:559-571 | on the wire, MAIL with SIZE=n is refused with 552 if and only if n is over the limit, and otherwise handed on with its parameters |
| Parameters.BadSizeRefused | smtp.go:559-565 | a SIZE that is no number or negative is refused with 501 where there is a limit |
| Parameters.AnnouncementDecides | smtp.go:658-667 | an 8-bit body reaches the handler if and only if its MAIL gave BODY=8BITMIME, in any case, or SMTPUTF8 |
| Parameters.BdatShape | smtp.go:689-705 | exactly a size, alone or followed by LAST in any case, is an argument of BDAT |
| Parameters.RcptWithoutKeyword | smtp.go:880-884 | a recipient without TO: is taken as it stands |
| Parameters.RcptWithKeyword | smtp.go:880-894 | after TO: in any case, a bare recipient is taken whole and a bracketed one up to its first closing bracket, if any |
| Journal.NotedMatches | smtp.go:120-247 | every command leaves the journal of commands and replies in agreement with the session |
| Journal.JournalTells | smtp.go:120-247 | in every session, before every command, commands and replies alone tell the greeting, the open envelope, whether a RCPT was handed on and whether a BDAT sequence is open |
| Journal.EnvelopeSinceMail | smtp.go:536-684 | when a body is handed over, its envelope is that of the last MAIL answered 250 and the RCPTs answered 250 since, with no RSET, greeting, TLS, DATA or completed BDAT between |
| Journal.GreetingBeforeMail | smtp.go:531-546 | when MAIL is handed on, a greeting was accepted before it, and TLS was not switched on since that greeting |
| Journal.MailReaches | smtp.go:536-579 | whether a MAIL is handed on, told from the commands and replies before it |
| Scripts.SplitsVerbWithArgs | smtp.go:34-41 | verb, one space and trimmed arguments are split apart again |
| Scripts.ParsesBdat | smtp.go:689-705 | a decimal size with or without LAST is parsed back, for every 64-bit size |
| Scripts.ParsesReversePath | smtp.go:841-877 | every valid sender without `>` is parsed back from its brackets |
| Scripts.ParsesForwardPath | smtp.go:880-894 | a recipient in brackets is read up to its first `>`, so it comes back if and only if it has none |
| Chunking.BdatFraming | smtp.go:759-802 | on every accepting and refusing path exactly the declared bytes are consumed, except for a size that passes every check and exceeds 64 MiB: then none, whatever has arrived |
| Chunking.LargestIsLeftUnread | smtp.go:791-803 | under every limit, in every open BDAT sequence with a chunk in it, the largest size that can be declared passes the check and is left unread |
| Chunking.LimitCheckMeans | smtp.go:791-794 | the 64-bit check stops exactly the sizes over the limit whose sum does not wrap |
| Chunking.CutOffChunk | smtp.go:797-803 | a chunk that breaks off ends the transaction without a callback |
| Chunking.NextCommandAfterChunk | smtp.go:734-834 | on the wire, the command after a BDAT is read right behind its chunk |
| Chunking.NextCommandInsideChunk | smtp.go:709-720 | a chunk that is left unread is read as commands from its first byte |
| Chunking.ServeNoops | smtp.go:225-226 | any number of NOOPs changes nothing but the replies, also within a BDAT sequence |
| Chunking.ChunksDelivered | smtp.go:734-834 | however a message within the limit is cut into chunks of at most 64 MiB, with NOOPs between, Data is called once with exactly the concatenation |
| Chunking.CutsAgree | smtp.go:734-834 | sessions that get the same message cut in two ways agree to their very end in callbacks, records, state and unread bytes, and in all replies but the acknowledgements |
| Pipeline.FireSafe | smtp.go:112-326 | every action of reader, worker and shutdown keeps the handover invariant |
| Pipeline.HandoffSafety | smtp.go:112-326 | in every reachable state at most one process uses the socket reader; a paused reader has exactly one of a queued takeover, one being handled, or a token; no send of a token blocks and no token outlives its pause |
| Pipeline.NeverStuck | smtp.go:120-326 | until the worker has left, reader or worker can act |
| Pipeline.RunsEnd | smtp.go:120-326 | under every scheduling the two processes perform a bounded number of actions |
| Refinement.ExecLocal | smtp.go:137-239 | a command that takes over nothing does the same whatever is unread, so it can be handled while the reader is ahead |
| Refinement.ReadAhead | smtp.go:269-325 | reading one command ahead of any number of ordinary ones does not change how the session ends |
| Refinement.FireConserves | smtp.go:112-326 | every action short of a shutdown leaves the end of the session, and the commands still ahead, as they were |
| Refinement.PipeliningInvisible | smtp.go:121-326 | without a shutdown, at every moment of every interleaving callbacks, replies and writes are a beginning of the sequential server's; when the worker has left, session and bytes consumed are the same |
| Refinement.EveryScheduleCompletes | smtp.go:121-326 | every schedule is bounded, stops only when the worker has left, and without a shutdown ends exactly as the sequential server |
| Refinement.ShutdownIsPrefix | smtp.go:248-252 | with a shutdown, what was done is a beginning of the sequential run, then one 421 if the worker saw it; unless the reader queued a command after discarding an over-long line |
| DroppedLine.ShutdownIsPrefixIff | smtp.go:272-281 | under every schedule a shutdown leaves such a beginning if and only if no over-long line of the input is followed by another command, for every handler that does not itself give the answer to an over-long line |
| DroppedLine.ShutdownIsPrefixInBytesIff | smtp.go:272-281 | the same of the bytes written, when replies are single lines with three-digit codes |
| DroppedLine.LongLineInput | smtp.go:272-281 | inputs with such a line: any over-long line and NOOP |
| DroppedLine.CalmAlwaysBegins | smtp.go:272-281 | without such a line no schedule and no shutdown is visible beyond the 421 |
| DroppedLine.LongLineIsLost | smtp.go:272-281 | for every input with such a line there is a schedule in which its answer is lost and a later one given |
| DroppedLine.Reaches | smtp.go:120-326 | every point of the sequential run is reached by some schedule |
| Replies.ExpectReply | cmd/postcat-replay/main.go:181-203 | the client's loop computes what its specification says of every input |
| Replies.ReplyDecodes | gateway.go:25-36 | a reply of any number of lines is read as one reply, with its own code and no other |
| Replies.RepliesDecodeUniquely | cmd/postcat-replay/main.go:181-203 | the bytes of a list of replies decode into exactly that list of codes and into no other |
| Replies.BareCodeContinues | cmd/postcat-replay/main.go:194-202 | a line with the code alone does not end a reply |
| Replies.NoCodeFails | cmd/postcat-replay/main.go:183-192 | a line that does not start with a number fails, and so does an unfinished one |
| Framing.EhloFramed | smtp.go:459-485 | the EHLO reply is one reply whatever extensions it lists |
| Framing.ExecAnswers | smtp.go:137-247 | every command is answered once, with a 354 before exactly when DATA reads a body |
| Framing.SessionRepliesDecode | smtp.go:98-247 | the bytes of a whole session decode into the banner, one reply for each command in order and one 354 for each body read, and into nothing else |
| Postcat.SanitizeAddr | internal/postcat/postcat.go:203-214 | no CR or LF is left, and an address without any is unchanged |
| Postcat.SanitizeKeeps | internal/postcat/postcat.go:203-214 | every other byte is kept in its place |
| Postcat.FindBlankLine | internal/postcat/postcat.go:173-188 | the earliest LF LF or CRLF CRLF, and none exactly when there is none |
| Postcat.WriteEnvelope | internal/postcat/postcat.go:43-59 | the loop writes the S record, one R record for each recipient in order, the T record and the blank line |
| Postcat.Parse | internal/postcat/postcat.go:131-168 | the loop over the records computes what the file says, errors included |
| PostcatRoundTrip.SeparatorFound | internal/postcat/postcat.go:173-188 | the blank line found is the one behind the records, wherever the body has blank lines |
| PostcatRoundTrip.PostcatRoundTrip | internal/postcat/postcat.go:34-168 | for arbitrary sender, recipients and body, and for LF or CRLF records, parsing gives back the normalised sender, one stripped recipient for each input in order, and the body byte for byte |
| PostcatRoundTrip.SenderWritten | internal/postcat/postcat.go:192-214 | the null sender is written as `<>`, any other as itself without CR and LF |
| PostcatRoundTrip.AnyFileReads | internal/postcat/postcat.go:131-168 | a file of arbitrary records cannot be read if and only if a T record is no time; otherwise it tells the last sender, all recipients in order, the last time and the body, other records ignored |
| PostcatRoundTrip.NoBlankLineIsEmpty | internal/postcat/postcat.go:140-145 | a file without a blank line is an empty message |
| Replay.HoldConversation | cmd/postcat-replay/main.go:62-138 | what the client sends, and whether it succeeds, for every byte string the server may write; it breaks off at the first reply that is not the one wanted |
| Replay.ReplayFile | cmd/postcat-replay/main.go:62-138 | the same from the file on: unreadable files, files without recipients and empty bodies send nothing and fail |
| Replay.NothingToReplay | cmd/postcat-replay/main.go:68-73 | the file of a message without recipients or body is not sent, whatever the server writes |
| Replay.ConverseAll | cmd/postcat-replay/main.go:62-138 | the conversation succeeds exactly when the wanted codes come in order, and then the whole script has been sent |
| Replay.SenderStays | cmd/postcat-replay/main.go:144-150 | every valid sender, the null sender included, is sent as itself after the way through the file |
| Replay.DataConcludes | smtp.go:618-684 | DATA with a resent body delivers its canonical form with 250 if and only if stuffed lines and canonical size are within the limits and it is 7-bit, and otherwise delivers nothing, always stopping right behind the terminator |
| Replay.TruncatedStays | cmd/postcat-replay/main.go:104-111 | the recipients come through unchanged if and only if none contains `>` |
| Replay.TurnsConclude | cmd/postcat-replay/main.go:62-133 | a server that takes everything, given all a client sends for a message, has the codes the client waits for and has delivered the message once, or nothing if its body does not get through |
| Replay.ClientSucceeds | cmd/postcat-replay/main.go:181-203 | a client that meets the codes it wants succeeds, having sent everything and QUIT |
| Replay.ClientFails | cmd/postcat-replay/main.go:181-203 | a client that meets another code for its last turn fails, having sent everything but QUIT |
| Replay.ClientMeetsServer | cmd/postcat-replay/main.go:62-138 | client and server closed into a loop: what is sent is what the client sends to a server that answers just that, and the replay succeeds if and only if the body gets through |
| Replay.FileReplays | internal/postcat/postcat.go:34-168 | the same from the envelope on, through the file: success delivers recipients cut off at `>` and the canonical body, failure delivers nothing |
| Replay.EndToEnd | cmd/postcat-replay/main.go:62-203 | any message that any session hands over, by DATA or BDAT, written to its file and replayed to a server that takes everything and admits it: the second handler sees the same sender, recipients and body in exactly one Data callback if and only if the message is non-empty, 7-bit, canonical with lines that fit, and without `>` in a recipient; under every interleaving of reader and worker |
| Replay.DataIsReplayable | smtp.go:618-684 | for a message handed over by DATA that condition is: not empty, 7-bit, no `>` in a recipient |
| Worker.Connection.constructor | smtp.go:98-110 | a new connection is in the initial state and has written the banner |
| Worker.Connection.WriteLines | smtp.go:473-484 | the loop over the lines writes one multi-line reply |
| Worker.Connection.HandleGreeting | smtp.go:430-486 | answer, new transaction and callbacks are those of the session machine, and nothing else changes |
| Worker.Connection.HandleStartTls | smtp.go:496-534 | the stream is replaced, the connection closed or the command refused as the session machine says |
| Worker.Connection.HandleMail | smtp.go:536-579 | the transaction after MAIL, accepted or not, and the answer |
| Worker.Connection.HandleRcpt | smtp.go:581-616 | the transaction after RCPT and the answer, on every path |
| Worker.Connection.HandleData | smtp.go:618-684 | the 354, the body read, the 8-bit check and the delivery, on every path |
| Worker.Connection.DiscardChunk | smtp.go:759-770 | exactly the declared bytes are skipped and the partial message is dropped |
| Worker.Connection.ReadNBytes | smtp.go:709-729 | a chunk over 64 MiB is refused unread, any other is read exactly |
| Worker.Connection.HandleBdat | smtp.go:734-834 | every path of BDAT, with the chunk consumed and whether the transaction ends |
| Worker.Connection.AppendChunk | smtp.go:805-833 | a chunk that was read is appended, and the last one delivered |
| Worker.Connection.HandlePlain | smtp.go:163-237 | the commands that do not take over the connection, those with arguments and the others |
| Worker.Connection.HandleTakeover | smtp.go:181-218 | the commands that do |
| Worker.Connection.Interrupt | smtp.go:139-160 | an over-long line, or a command that is not allowed in an open BDAT sequence, abandons the sequence |
| Worker.Connection.Dispatch | smtp.go:137-247 | one command, by its verb, changes fields, output and stream exactly as the session machine says |
| Worker.Connection.Run | smtp.go:120-247 | the whole loop ends in exactly the state of the sequential server, with exactly its bytes written |
| Admission.FireAccounts | gateway.go:364-399 | every step keeps slots equal to the connections holding one and the wait group equal to the connections not yet gone |
| Admission.SlotsAccounted | gateway.go:375-397 | in every run occupied slots are exactly the connections that hold one and the one being started, never more than the limit |
| Admission.AdmitsIffRoom | gateway.go:375-388 | a waiting accept loop admits a connection if and only if there is no limit or fewer than the limit hold a slot, and turns it away if and only if exactly as many do |
| Admission.UnwindingNeverBlocks | gateway.go:390-396 | giving back a slot and leaving the wait group never block |
| Admission.ReleasedOnce | gateway.go:390-396 | over any run a connection gives back its slot exactly once, after it has ended |
| Admission.EndsOnce | smtp.go:89-95 | a connection ends exactly once, by a return or by a panic |
| Admission.ShutdownWaits | gateway.go:406-423 | when Shutdown has returned nil, there was a moment after its call with the wait group at zero and every started connection finished |
| Admission.ServeWaits | gateway.go:364-373 | Serve returns nil only when every connection has finished |
| Admission.ServeResult | gateway.go:364-373 | Serve returns the listener's error if and only if Shutdown had not been called when the listener failed |
| Admission.QuietForGood | gateway.go:364-399 | once no connection is running and the accept loop is through with its listener, both stay so and none is ever started |
| Admission.StartedByOpenLoop | gateway.go:364-399 | a connection started after a quiet moment was admitted by a loop still accepting then |
| Admission.AdmittedAfterShutdown | gateway.go:401-405 | since the listener stays open, a connection can be admitted after Shutdown has returned nil |

## Left out

- Refinement.ShutdownIsPrefix: has a proviso about the run, because the claim is false without it; `DroppedLine.ShutdownIsPrefixIff` has the exact condition on the input.
- Replay.EndToEnd: the second server takes everything, and its recipient and size limits admit the message as handed over; another server's refusals are not followed.
- Pipeline.FireSafe: handling a command, with its callbacks and its 354, is one action, and so is sending the resume token with it; the final reply is another. Only the worker changes what lies between.
- Worker.Connection.Run: reads and handles in turn; the two goroutines are the subject of `Pipeline` and `Refinement`. Commands are parsed where the line is read in `Session` and inside the handlers in `Worker`.
- Worker.Connection.HandleStartTls: the handshake itself and its deadline; and plaintext already buffered when it fails, which the program can still read as one more command before the write of its reply fails, and the model drops.
- Write failures, write deadlines and the 454 and 451 replies that follow them: all writes succeed.
- Deadlines, the resume timer and the 50 ms watchdog, which can make a read fail at any byte; a failing read is an end of a burst.
- Handler panics inside a session, beyond the slot accounting of `Admission`: the connection is closed.
- `Tx.RemoteAddr` and `Tx.Hostname`, and the contents of the TLS state beyond whether there is one.
- Changes that a handler makes to the transaction, and aliasing of the slices it is shown: callbacks see values.
- The file system work of `postcat.Write` and the reading of the file in `Parse`; a write is appended to a log and never fails.
- RFC 3339 formatting and parsing; Unicode white space, case folding and invalid UTF-8.
- The checks and defaults at the start of `Serve`, options, logging, and the other commands under `cmd/`: no property worth a proof.
