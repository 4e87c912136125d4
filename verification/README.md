# Verified model of the DNS resolver, the DNS codec, the buffered stream and the URL parser

This project models the parts of the repository in which state, protocol and byte-level formats meet, and proves
what they promise for every input and every run:

* the **resolver multiplexer** (`src/dns/resolve.c` on the coroutines of `src/common/event.c`): any number of tasks
  share one UDP socket, one of them yields on its event, the others wait to be notified;
* the **event loop bookkeeping** (`src/common/event.c`): registration, delayed destruction, the main loop's walk over
  a list that changes under it;
* the **DNS wire codec** (`src/dns/pack.c`, `src/dns/unpack.c`, query assembly in `src/dns/dns.c` and
  `src/dns/resolve.c`), sections 4.1.1, 4.1.2 and 4.1.4 of RFC 1035;
* the **buffered stream and HTTP bodies** (`src/common/stream.c`, `src/common/http.c`), section 3.6.1 of RFC 2616;
* the **table-driven in-place parser** with its URL and form clients (`src/common/parse.c`, `src/common/url.c`).

## How it is built

| file | what it holds |
|---|---|
| `Clock.dfy` | deadlines: `timestamp_from_timeout`, `timeout_from_timestamp` |
| `Queries.dfy` | the pending queue of `struct dns` and its invariant |
| `Sync.dfy` | `dns_resolve_sync` as a step system: switch stack, program point of every task, event owner, wait pointers |
| `SyncProof.dfy` | every step keeps the invariant |
| `SyncRuns.dfy`, `SyncProgress.dfy` | what that means for whole runs: safety, and the settling measure |
| `SyncLaws.dfy` | what a step does to queries and tasks, told without the code's own functions |
| `SyncEvents.dfy` | every run of the resolver is a run of the event loop of `EventLoop.dfy` |
| `Resolver.dfy` | the same operations as objects updated in place, each proved to carry out its step |
| `EventLoop.dfy` | events, tasks and the main loop for any number of events, with delayed destruction |
| `EventLaws.dfy` | who runs when, told from flags and owners, and that a pass reaches every event |
| `Names.dfy`, `Packets.dfy`, `Messages.dfy` | names, cursors and buffers, headers, questions, queries |
| `Streams.dfy`, `Chunks.dfy`, `Http.dfy` | the sliding buffer, chunked coding on plain byte queues, the body readers and writers |
| `Parser.dfy`, `Urls.dfy`, `Forms.dfy` | the automaton, its URL table and printer, form decoding |
| `NameLaws.dfy`, `ChunkLaws.dfy`, `UrlLaws.dfy`, `FormLaws.dfy` | what the readers make of texts and messages that are put together byte by byte |
| `Options.dfy`, `CStrings.dfy`, `Sums.dfy` | optional values, NUL-terminated strings, sums over sequences |

Code that works by changing things step by step is modelled by methods of classes with the same fields; each is proved
against a function on values, and what the source promises is proved about that function. Pointers are positions in a
table or a buffer. A coroutine switch is a push on, or a pop off, an explicit stack. Where the environment decides (the
pieces in which a transport moves bytes, the datagrams that arrive, what select() reports, when the clock moves, what
tasks do between two calls) the model leaves the choice open, so a theorem holds for every choice. `EventLoop.dfy` lets
tasks do anything with any number of events; `Sync.dfy` looks at the one event of the resolver and at what its tasks do.
`SyncEvents.dfy` connects the two: each resolver step is a sequence of event loop steps, so that main's wakeups, which
`Sync.dfy` leaves to the environment, are wakeups that the main loop can make; and the main loop can do nothing else to
the tasks.

Assumptions: the clock is normalised and does not go back; no allocation fails, and sending a datagram succeeds; a stream
whose transport is marked `reliable` neither fails nor times out (every method also says what holds without that); a read
leaves the buffer behind the bytes it delivers alone; `size_t` has 64 bits, `char` is signed, and `sscanf` follows
the C standard in refusing a `0x` without digits.

The models follow the code. The laws (the files named so) say what must come of it: what is to be read off bytes that are
put together with every separator, digit and bit written out, and what has to happen to a query, a task or an event, and
when.

## What the proofs found

* A retransmission is not the original datagram. The first `dns_query` leaves the cursor behind the header, and the next
  one takes the cursor for the end of the packet, so `dns_resolve_retry` sends the header alone, although its comment counts
  on the old packet being intact. It equals the first datagram if and only if there was no question
  (`Messages.ResendEqualsSendIff`).
* `http_read_chunked` returns a pointer into the buffer and then reads the line after the chunk, which moves the buffer.
  The piece that completes a chunk is overwritten before the caller sees it: from its first byte on lie the end of that
  line and what has been read behind it. Whether that happens can be told before the call: a piece is delivered unharmed
  if more of its chunk is left than fits the buffer and is still to come; otherwise it is harmed, unless it began with a
  NUL itself and the bytes happen to agree (`Http.Http.ReadChunked`, `Http.FirstPiece`). The body "abc" in one chunk is
  never delivered as "abc", whatever the buffer (`Http.HarmedPiece`). `http_read_chunked_file` copies the bytes out first
  and is not affected.
* `http_vprint_chunk` announces a text that does not fit the buffer and then does not send it (`Http.Http.PrintChunk`,
  `Chunks.OverlongChunk`).
* An empty chunk given to `http_write_chunk` ends the body for the reader; the chunked round trip holds exactly without
  empty chunks and with a buffer that holds every header line (`Chunks.ChunkedRoundTripIff`).
* `timestamp_from_timeout` does not carry, and against a deadline that should have been carried the verdict of
  `timeout_from_timestamp` is wrong in exactly one case (`Clock.PastVerdict`, `Clock.PastVerdictCanBeWrong`). With the
  whole-second timeouts of the resolver it is always right (`Clock.DeadlineRoundTrip`).
* Parsing a printed URL gives it back exactly for the urls that `Urls.Printable` describes. Of the urls that were parsed,
  those with a query or a host that needs brackets are printed as something else (`Urls.ReadUrlSurvivesIff`,
  `Urls.BracketsAreLost`). A text of exactly 1024 bytes loses its last one (`Urls.UrlBuf.UrlbufParse`).
* A form whose last item is an empty name without a value loses that item, and no other form does
  (`Forms.FormKept`, `Forms.FormRoundTripIff`).
* `_stream_write` collapses its error code into a truth value: an error comes back as 1, and a timed-out write counts as sent,
  against the comment above it. With something buffered the result is 1 if and only if the transport failed or took
  nothing, and bytes are lost if and only if it timed out with its size not zero (`Streams.Stream.SendSome`).
* With five retries of two seconds a query is given up after twelve seconds (`SyncLaws.GivenUpAfterTwelveSeconds`), not
  ten as the comment beside the constant has it.
* A length byte with either of its top bits set is taken for a pointer (`NameLaws.PointerIsFollowed`), where section 4.1.4
  of RFC 1035 reserves the forms with one of them.
* The table of `url_parse` accepts a bracket that is not closed and reads nothing (`UrlLaws.OpenBracketIsIgnored`), and
  passes over anything between the first two slashes behind a scheme (`UrlLaws.PassedOver`).
* The comment in `dns_resolve_retry` says that the resolve moves to the head of the queue; the code moves it to the tail,
  and the deadline order rests on that.

## Model

| member | source | states |
|---|---|---|
| Clock.TimestampFromTimeout | src/common/util.c:109-122 | the deadline lies exactly the timeout after now; it is normalised exactly when the microseconds do not need a carry |
| Clock.TimeoutFromTimestamp | src/common/util.c:124-153 | for normalised times the result is 0 exactly when the deadline is not past, and then now plus the timeout is the deadline |
| Clock.DeadlineRoundTrip | src/common/util.c:109-153 | with whole-second timeouts the two helpers invert each other: past exactly when it is, and otherwise what is left runs up to the deadline |
| Clock.PastVerdict | src/common/util.c:117-119 | against deadlines that were not carried the verdict is right in all but exactly one case |
| Clock.PastVerdictCanBeWrong | src/common/util.c:117-148 | a deadline half a second ahead that is called past |
| Queries.Match | src/dns/resolve.c:267-275 | the id scan finds a pending resolve with the id, and finds none only if there is none |
| Queries.QueryInv | src/dns/resolve.c:121-149 | sending keeps the queue invariant: queued exactly once if and only if pending, deadline order, id numbering, one transmission, sent equals pending plus answered plus timed out |
| Queries.RetryInv | src/dns/resolve.c:154-181 | a retransmission keeps the queue invariant |
| Queries.SettleInv | src/dns/resolve.c:254-291 | settling a resolve, by a response or by giving up, keeps the queue invariant |
| Queries.SetWaitInv | src/common/event.c:449-497 | wait pointers do not touch the queue invariant |
| Queries.HeadIsEarliest | src/dns/resolve.c:222-228 | the head of the queue has the earliest deadline of all pending resolves |
| Queries.SameIdIff | src/dns/resolve.c:125-126 | two resolves share an id exactly if a multiple of 65536 allocations lies between them |
| Queries.AtMostOneMatch | src/dns/resolve.c:267-270 | while no pending resolve is overtaken by 65536 allocations, an id matches the one resolve that has it |
| SyncProof.NotifyStack | src/common/event.c:476-507 | notifying a waiting task pushes a task that was not on the stack, and leaves an obliged one on top |
| SyncProof.AfterResponseInv | src/dns/resolve.c:349-380 | whatever dns_resolve_response() settles, what the loop does with it keeps the invariant |
| SyncProof.YieldInv | src/common/event.c:389-408 | yielding when nobody else does keeps the invariant |
| SyncProof.WaitInv | src/common/event.c:435-474 | waiting while another task yields keeps the invariant |
| SyncProof.TurnInv | src/dns/resolve.c:339-397 | one turn of the loop never follows a NULL pointer and keeps the invariant, whatever the socket holds |
| SyncProof.UnwaitedHeadIsOnStack | src/dns/resolve.c:403-406 | a head of the queue whose owner does not wait, while nobody yields, is owned by a task on the switch stack: the assumption the code only logs |
| SyncProof.AfterLoopInv | src/dns/resolve.c:399-413 | the poke after the loop, made or skipped, keeps the resolver alive |
| SyncProof.MainInv | src/common/event.c:629-668 | main's wakeup of the yielding task is well defined and keeps the invariant |
| SyncProof.StepInv | src/dns/resolve.c:301-425 | every step that can be taken is well defined and keeps the whole invariant |
| SyncRuns.RunInv | src/dns/resolve.c:307-338 | the invariant holds in every state of every run |
| SyncRuns.NoLostWakeup | src/dns/resolve.c:324-337 | whenever main is in control and a query is pending, exactly one task yields on the event, for a pending query of its own, and every other pending query's task is in event_wait() with its wait pointer set |
| SyncRuns.NobodyForgotten | src/dns/resolve.c:324-325 | whenever main is in control, the tasks suspended in the resolver are exactly those that own a pending query |
| SyncRuns.StepSwitches | src/common/event.c:157-189 | a step pops the running task or switches only into tasks that are new, away, yielding or waiting |
| SyncRuns.SwitchTargets | src/dns/resolve.c:316-322 | in every run the switch stack never holds a task twice, and no log_fatal() branch is taken |
| SyncRuns.FreedIsForgotten | src/common/event.c:175-186 | once a task has exited it stays so, and nothing ever points to it again: no stack, event, wait pointer or pending query, in any later state of the run |
| SyncRuns.SettledForGood | src/dns/resolve.c:257-289 | a response is written once and stays, the resolve is not queued again, ids and owners do not change |
| SyncRuns.Accounting | src/dns/resolve.c:140-291 | over every run, sent is pending plus answered plus timed out; pending means no response; each resolve is transmitted between once and six times, and six times if it timed out |
| SyncRuns.HeadAcrossYield | src/dns/resolve.c:222-265 | the head captured before the yield is still the pending head, with the earliest deadline, while the task is suspended |
| SyncLaws.StepFollows | src/dns/resolve.c:216-294 | what a step does to the queries, told from deadlines, datagrams and ids: the head is retransmitted, or given up after five times, if and only if its deadline has passed, the datagram cannot be read or main reports a timeout; a reply answers the first pending query with its id; nothing else touches a query |
| SyncLaws.StepMoves | src/dns/resolve.c:339-397 | who runs after a turn of the loop or a wakeup by main: with nothing to read the task yields for the head; the task of a query that was settled leaves its loop, runs now if it was waiting, or is on the stack |
| SyncLaws.PokeMoves | src/dns/resolve.c:399-413 | the poke wakes the task of the head of the queue exactly if that one waits, and otherwise the call returns |
| SyncLaws.ReplyIsDelivered | src/dns/resolve.c:267-291 | in every run a reply that is read with the id of one pending query settles exactly that one, and its task runs or is on the stack |
| SyncLaws.GivenUpAfterTwelveSeconds | src/dns/resolve.c:53-54 | in every run with readable datagrams and honest timeouts a query is retransmitted at most once for every two seconds and given up no earlier than twelve seconds after it was sent |
| SyncProgress.ExpireSettles | src/dns/resolve.c:242-265 | a timeout uses up exactly one chance, whether it is retried or given up |
| SyncProgress.AnswerSettles | src/dns/resolve.c:267-291 | a matched response uses up all that is left of its resolve, an unmatched one changes nothing |
| SyncProgress.QuerySettles | src/dns/resolve.c:121-145 | a query brings in one transmission and the allowed retries |
| SyncProgress.StepEnergy | src/dns/resolve.c:339-413 | every step that is not the environment's doing strictly lowers one measure of the whole system; the others raise it by a fixed amount at most |
| SyncProgress.InternalStepsAreBounded | src/dns/resolve.c:339-413 | no livelock: the internal steps of a run are bounded by what the environment brings in: 42 for a query, one for a task start, a resumption and an unmatched datagram that main reports, nothing for anything else |
| SyncProgress.PendingMeansProgress | src/dns/resolve.c:399-413 | no deadlock: while a query is pending there is an internal step to take |
| SyncProgress.StretchEnergy | src/dns/resolve.c:339-413 | the same from any state that keeps the invariant: what is left of the measure and the internal steps taken are paid for by the measure at the start and by what the environment brings in |
| SyncProgress.EveryStretchSettles | src/dns/resolve.c:216-425 | whatever tasks, clock and network do, the internal steps are bounded by the measure at the start and what the environment brings in, to which matched replies add nothing; wherever no internal step is left to take every query is settled |
| SyncProgress.EveryInternalRunSettles | src/dns/resolve.c:216-425 | every run of internal steps, however chosen, is at most as long as the measure it begins with, and one that cannot be prolonged has settled every query |
| SyncProgress.EverythingSettles | src/dns/resolve.c:216-425 | from every state there is a run of internal steps that settles every query |
| SyncEvents.WakeReady | src/common/event.c:640-668 | from any state of the main loop that looks like a state of the resolver, any owned event can be found ready and its task woken |
| SyncEvents.WakeTimedOut | src/common/event.c:629-645 | it can also let the resolver's event time out and wake the yielding task |
| SyncEvents.Simulates | src/dns/resolve.c:301-425 | every step of the resolver is a sequence of steps of the event loop |
| SyncEvents.RunsInTheLoop | src/common/event.c:544-677 | every run of the resolver is a run of the event loop, state by state |
| SyncEvents.MainLoopIsCovered | src/common/event.c:544-677 | the other way round: whatever select() reports, a step of the main loop leaves the tasks alone, or wakes one as the resolver model does, or ends when nobody owns an event |
| SyncEvents.MainLoopEndsWhenAllExited | src/common/event.c:594-597 | event_main_run() ends if and only if every task has exited, so not while a query is pending |
| Resolver.Program.CoResume | src/common/event.c:163-189 | returning from a coroutine restores the task below as the running one, which goes on behind the call that switched away; a task that has exited is freed |
| Resolver.Program.EventTaskExit | src/common/event.c:194-206 | a task whose function returns is freed, and at that moment nothing points to it |
| Resolver.Program.EventYield | src/common/event.c:389-395 | registers the running task as the event's owner and hands control back |
| Resolver.Program.EventWait | src/common/event.c:435-459 | sets the wait pointer and the waiting mark and hands control back |
| Resolver.Program.EventNotify | src/common/event.c:476-506 | clears the wait pointer and switches into the task it named |
| Resolver.Program.DnsResolveQuery | src/dns/resolve.c:121-149 | carries out the query step: next id, deadline in two seconds, tail of the queue |
| Resolver.Program.DnsResolveRetry | src/dns/resolve.c:154-181 | carries out the retry step |
| Resolver.Program.FindById | src/dns/resolve.c:267-275 | the loop finds the first pending resolve with the id, or none |
| Resolver.Program.DnsResolveResponse | src/dns/resolve.c:216-294 | expires the head or answers the matching resolve; a short datagram counts as a timeout of the head |
| Resolver.Program.SyncTurn | src/dns/resolve.c:339-397 | one turn of the loop is the turn of the step system |
| Resolver.Program.SyncAfterLoop | src/dns/resolve.c:399-413 | the code after the loop is the poke of the step system |
| Resolver.Program.MainWake | src/common/event.c:629-668 | main's switch into the yielding task is the wakeup of the step system |
| Resolver.Program.DnsResolveSync | src/dns/resolve.c:301-425 | the whole call is a run of such steps, and a call that ends without being switched away has its response |
| EventLoop.YieldInv | src/common/event.c:266-364 | registering and yielding keeps the bookkeeping invariant |
| EventLoop.DestroyEffect | src/common/event.c:509-542 | destroying unregisters exactly the owner, which is always registered, and takes the event off the list only outside tasks |
| EventLoop.DestroyInv | src/common/event.c:509-542 | destroying any event at any time keeps the bookkeeping invariant |
| EventLoop.WakeInv | src/common/event.c:629-668 | waking an event's task keeps the bookkeeping invariant |
| EventLoop.SweptInv | src/common/event.c:558-568 | the first pass removes exactly the events marked for destruction |
| EventLoop.StepInv | src/common/event.c:544-677 | every step is well defined (the main loop's pointers are never stale, a timed-out event has a task) and keeps the invariant |
| EventLoop.RunInv | src/common/event.c:348-358 | in every run the spurious-activation, unexpected-return, pending-task and underflow branches are unreachable |
| EventLoop.RegisteredIsOwned | src/common/event.c:75-78 | task->registered is the number of events the task owns |
| EventLoop.DestructionIsDelayed | src/common/event.c:527-533 | while a task runs, no event leaves the list |
| EventLoop.MainLoopEndsIff | src/common/event.c:594-597 | the main loop ends if and only if no task is registered for an event |
| EventLoop.EarliestIsLeast | src/common/event.c:579-587 | the event chosen to time out has the earliest deadline, if no deadline has zero seconds |
| EventLoop.EventMain.EventRegister | src/common/event.c:266-315 | refuses without flags or on a taken event, and otherwise makes the running task the owner and counts it |
| EventLoop.EventMain.EventYield | src/common/event.c:389-395 | carries out the yield step |
| EventLoop.EventMain.EventWake | src/common/event.c:338-402 | carries out the wakeup step, from main's switch to the cleared event |
| EventLoop.EventMain.EventDestroy | src/common/event.c:509-542 | carries out the destroy step |
| EventLoop.EventMain.FirstPassOver | src/common/event.c:558-592 | the loop that destroys events of the list it walks computes the swept list, whether any event is active, and the timeout event |
| EventLoop.EventMain.SecondPassOver | src/common/event.c:647-674 | one event of the second pass is the visit of the step system |
| EventLaws.VisitRuns | src/common/event.c:647-674 | in the second pass an event's task runs if and only if it has one and select() reported something the event is registered for, reading or writing; otherwise the pass goes on |
| EventLaws.TimeoutRuns | src/common/event.c:629-645 | at a timeout the task of the chosen event runs |
| EventLaws.YieldRegisters | src/common/event.c:266-395 | yielding on a free event registers the running task for exactly the flags and the deadline given; otherwise it is refused |
| EventLaws.EveryEventIsVisited | src/common/event.c:647-675 | a whole second pass comes to every event that was on the list, whatever the tasks it wakes do to the list, and runs its task if something it is registered for was reported |
| EventLaws.FirstSecondIsForgotten | src/common/event.c:579-587 | a deadline in the first second of the epoch gives way to any later event in the list |
| EventLaws.LaterIsChosen | src/common/event.c:579-587 | two concrete deadlines of which the later one is chosen |
| Names.ExpandSound | src/dns/unpack.c:132-181 | whatever is read off a name is spelt by a chain of labels and pointers within the step limit |
| Names.ExpandComplete | src/dns/unpack.c:132-181 | every chain within the step limit is read |
| Names.NameAtIff | src/dns/unpack.c:123-198 | reading succeeds with a text if and only if a chain of at most 129 labels and pointers inside the message spells it and it fits the buffer |
| Names.WireSpells | src/dns/pack.c:83-133 | the wire form of short labels spells exactly those labels |
| Names.SplitText | src/dns/pack.c:96-116 | splitting joined labels gives them back |
| Names.NameRoundTrip | src/dns/pack.c:83-133 | packing a name and reading it back gives it without empty labels, packing that gives the same labels and bytes, and the step limit is out of reach |
| NameLaws.LabelIsSpelt | src/dns/unpack.c:151-176 | a length byte below 64 and as many bytes of text spell a label, and the name goes on behind them |
| NameLaws.PointerIsFollowed | src/dns/unpack.c:134-149 | two bytes of which the first has a top bit set lead to the offset in their other fourteen bits |
| NameLaws.CompressedNameIsRead | src/dns/unpack.c:123-198 | labels followed by a pointer to labels elsewhere in the message read as one name, and reading goes on behind the pointer |
| NameLaws.SharedEndIsRead | src/dns/unpack.c:123-198 | in particular a name that ends in a pointer to one that was packed |
| NameLaws.WireIs | src/dns/pack.c:112-133 | the wire form byte by byte: each label behind its length, and a zero byte |
| NameLaws.NameIsCutAtDots | src/dns/pack.c:89-116 | names are cut at their dots and empty labels are skipped wherever they are |
| Packets.U16RoundTrip | src/dns/pack.c:22-34 | a 16-bit value in network order reads back |
| Packets.Packet.UnpackU16 | src/dns/unpack.c:37-51 | reads in network order inside the packet; the cursor moves in any case |
| Packets.Packet.UnpackBuf | src/dns/unpack.c:69-81 | copies exactly the next bytes, or nothing |
| Packets.Packet.PackU16 | src/dns/pack.c:22-34 | writes in network order inside the packet, or nothing; the cursor moves in any case |
| Packets.Packet.PackBuf | src/dns/pack.c:50-60 | writes exactly the bytes, or nothing |
| Packets.Packet.UnpackName | src/dns/unpack.c:123-198 | the loop succeeds exactly where the declarative reading does, leaves that text with its NUL, and puts the cursor just past the part in place |
| Packets.Packet.PackName | src/dns/pack.c:83-133 | succeeds exactly if every label has at most 62 bytes and the wire form fits, and writes exactly that; 2 only for a label that is too long |
| Messages.FlagsRoundTrip | src/dns/pack.c:66-75 | the seven flag fields read back from the packed word, whatever the unused bits are |
| Messages.HeaderRoundTrip | src/dns/unpack.c:97-121 | a packed header reads back |
| Messages.PackHeader | src/dns/pack.c:62-81 | writes the twelve bytes of the header exactly if they fit |
| Messages.UnpackHeader | src/dns/unpack.c:97-121 | reads the header exactly if twelve bytes are there |
| Messages.PackQuestion | src/dns/pack.c:135-142 | a question is written exactly if its name can be and it fits |
| Messages.UnpackQuestion | src/dns/unpack.c:200-207 | reads a question exactly if its name can be read and four bytes follow |
| Messages.ReadQuestions | src/dns/resolve.c:516-537 | iterating hands out the questions in order, up to the count or the first malformed one |
| Messages.QuestionRoundTrip | src/dns/unpack.c:200-207 | a packed question reads back with its name normalised |
| Messages.QuestionsRoundTrip | src/dns/resolve.c:516-537 | any number of packed questions read back in order |
| Messages.QueryRoundTrip | src/dns/resolve.c:56-131 | the datagram of a query decodes to its id, a recursive query with the right count, and its questions with normalised names |
| Messages.QueryBytes | src/dns/resolve.c:73-78 | the first twelve bytes of a query: the id, a standard query that asks for recursion, the number of questions, no records, high bytes first |
| Messages.QuestionEnds | src/dns/pack.c:135-142 | a packed question ends in its type and then its class, high bytes first |
| Messages.QuestionIsRead | src/dns/unpack.c:200-207 | a question is read exactly where a name and four more bytes are, and those are its type and its class |
| Messages.HeaderIsRead | src/dns/unpack.c:97-121 | which bits and bytes of the twelve every header field is read from |
| Messages.DnsQuery | src/dns/dns.c:130-161 | cuts the packet at the cursor, rewrites the header, touches no other byte, and sends that |
| Messages.Query.AddQuestion | src/dns/resolve.c:91-116 | a question is taken exactly if its name passes and it fits, and is counted; what was packed ends in its type and class 1 |
| Messages.Query.Send | src/dns/resolve.c:121-132 | sends the datagram of the id and exactly the questions asked |
| Messages.Query.Resend | src/dns/resolve.c:158-162 | a retransmission consists of the header alone |
| Messages.ResendEqualsSendIff | src/dns/resolve.c:158-162 | a retransmission equals the first datagram if and only if nothing was asked |
| Messages.DnsResponse | src/dns/dns.c:163-199 | a datagram is refused exactly if it is shorter than a header, and otherwise its header is read |
| Streams.FirstLf | src/common/stream.c:332-340 | the first LF and no earlier one |
| Streams.Stream.Clear | src/common/stream.c:119-132 | compacting keeps what is buffered, and fails exactly for a full buffer of which nothing was consumed |
| Streams.Stream.Fill | src/common/stream.c:143-168 | takes one piece without changing the queue; 1 means the end of the stream or a full buffer |
| Streams.Stream.Read | src/common/stream.c:285-319 | returns exactly the first min(want, size, remaining) bytes and takes them off the queue, or reports the end; nothing is lost |
| Streams.Stream.ReadLine | src/common/stream.c:321-355 | succeeds exactly if an LF lies in the first `size` bytes of the queue, returns the text before the first CR, NUL or LF, consumes through that LF and says what it leaves in the buffer; failing only blanks CRs |
| Streams.Stream.ReadFile | src/common/stream.c:420-466 | what the file receives is exactly what leaves the queue, and nothing is lost on failure |
| Streams.Stream.SendSome | src/common/stream.c:255-283 | with something buffered the result is 1 exactly if the transport fails or takes nothing; sent plus buffered is conserved if and only if the transport does not time out with its size not zero |
| Streams.Stream.Flush | src/common/stream.c:473-488 | a front of what is buffered is sent, in order: all of it over a reliable transport; after an error the others are still buffered |
| Streams.Stream.WriteDirect | src/common/stream.c:219-248 | what was sent is a prefix, and all of it on success |
| Streams.Stream.Write | src/common/stream.c:490-499 | a front of the buffered bytes goes out before a front of the new ones; success means all of the new ones, over any transport, and over a reliable one everything goes out |
| Streams.Stream.Printf | src/common/stream.c:501-521 | a text is sent whole if it fits the room left with its NUL, and otherwise not at all |
| Chunks.ScanOfHex | src/common/http.c:520-523 | scanning a printed chunk size gives it back |
| Chunks.PlainLine | src/common/http.c:127-137 | a line that was written is read back exactly if the buffer holds it with its CRLF |
| Chunks.DechunkPart | src/common/http.c:624-656 | a chunk may be taken in pieces of any size |
| Chunks.FirstLfBlanked | src/common/stream.c:333-336 | overwriting CRs does not move the lines |
| Chunks.SentAndEnded | src/common/http.c:283-362 | chunks written one after the other and then ended make up the chunked body |
| Chunks.DechunkOne | src/common/http.c:283-299 | a written chunk is read as its bytes, and reading goes on behind it |
| Chunks.DechunkMisfit | src/common/http.c:511-531 | a header line that does not fit stops the reader; an empty chunk ends the body |
| Chunks.ChunkedRoundTripIff | src/common/http.c:619-670 | reading what was written gives the concatenated chunks and leaves exactly what follows, if and only if no chunk is empty and the buffer holds every header line |
| Chunks.OverlongChunk | src/common/http.c:326-341 | a chunk that is announced and not sent swallows what follows |
| ChunkLaws.LineIsCut | src/common/stream.c:321-355 | a line ends at an LF, with or without a CR, and its text at the first CR or NUL |
| ChunkLaws.ChunkIs | src/common/http.c:283-299 | a chunk byte by byte: its size in lower-case hex, CR, LF, its bytes, CR, LF |
| ChunkLaws.SizeIsRead | src/common/http.c:520-523 | a size is read behind white space, a plus and a 0x, in digits of either case, up to anything that is not a digit |
| ChunkLaws.LargeSizeIsRead | src/common/http.c:520-523 | a size above the largest is clamped |
| ChunkLaws.NegativeSizeIsRead | src/common/http.c:520-523 | a negative size wraps |
| ChunkLaws.SizeLineIsRead | src/common/http.c:511-531 | a chunk has the size its size line scans to, whatever else stands in the line |
| ChunkLaws.BadSizeIsRefused | src/common/http.c:520-523 | a size line without a number is refused |
| ChunkLaws.JunkIsRefused | src/common/http.c:543-546 | anything between a chunk and its line end is refused, after the chunk has been delivered |
| ChunkLaws.EndOfStream | src/common/http.c:619-670 | a stream that ends where a size line or a line end should stand is reported |
| ChunkLaws.TrailerIsSkipped | src/common/http.c:601-617 | trailing headers are skipped up to the empty line and the reader stops behind it, exactly if the buffer holds every one of them |
| ChunkLaws.TrailerIsCutShort | src/common/http.c:601-617 | a stream that ends in the trailer is reported |
| ChunkLaws.TrailedRoundTripIff | src/common/http.c:601-670 | the chunked round trip with trailing headers: chunks come back and exactly what follows the trailer is left, if and only if no chunk is empty and the buffer holds every size line and every header |
| Http.Http.ReadFile | src/common/http.c:462-509 | for a length n > 0 the result is 0 if and only if n bytes were there, exactly those are delivered, and the rest of the stream is intact, for every fragmentation and every partial write |
| Http.Http.ReadChunkHeader | src/common/http.c:511-531 | reads the size line: 0 with the size, 1 at the last chunk or the end, -1 for anything else |
| Http.Http.ReadChunkFooter | src/common/http.c:533-549 | accepts exactly an empty line |
| Http.Http.ReadChunks | src/common/http.c:601-617 | skips trailing headers up to the empty line |
| Http.Http.ReadChunked | src/common/http.c:558-596 | the piece and what is still to come make up the body, whatever fails later; the piece is delivered unharmed if more of its chunk is left than fits the buffer and is still to come, and otherwise the caller finds exactly the line end and the bytes read behind it, over the front of the piece |
| Http.FirstPiece | src/common/http.c:558-596 | what the first call on a fresh stream delivers for any body and buffer: the bytes of the chunk exactly if more of it is left |
| Http.HarmedPiece | src/common/http.c:558-596 | a concrete body whose only chunk is not delivered as it is: three bytes come back, and not the three that were coded |
| Http.Http.ReadChunkedFile | src/common/http.c:619-670 | for every fragmentation and partial write the result and the bytes delivered are those of decoding the plain byte queue; if anything fails on the way they are the front of it, and success means all of it and leaves what follows the body |
| Http.Http.WriteChunk | src/common/http.c:283-299 | sends exactly the coded chunk if the size line fits the buffer, and nothing otherwise |
| Http.Http.PrintChunk | src/common/http.c:301-344 | a text whose size line fits the buffer is sent as a well-formed chunk exactly if it is shorter than the buffer, and is otherwise announced but not sent; an empty text, or one whose size line does not fit, sends nothing |
| Http.Http.WriteChunks | src/common/http.c:358-362 | sends the last chunk and the empty trailer exactly through a buffer of more than five bytes, and nothing otherwise |
| Http.Http.WriteAll | src/common/http.c:283-362 | a whole body goes out as the chunked body exactly if the buffer holds every size line and the last chunk, and otherwise the chunks before the first that does not fit |
| Http.WriteBody | src/common/http.c:283-362 | the bytes a peer gets for any list of chunks and any buffer |
| Http.ReadBody | src/common/http.c:619-670 | for any bytes of a peer and any buffer, the result, the file and what is left are those of decoding the bytes |
| Http.Transfer | src/common/http.c:283-670 | end to end: chunks that were written, followed by anything and read into a file, arrive and leave what follows, if and only if none is empty and the reader's buffer holds every size line |
| Parser.LookupIsFirst | src/common/parse.c:9-25 | the rule found is the first that matches and no sentinel comes before it; none is found only if none matches before the sentinel |
| Parser.ParseStep | src/common/parse.c:9-25 | the loop finds exactly that rule |
| Parser.Scan | src/common/parse.c:62-116 | parsing changes nothing before the string or from its end on, and changes bytes only to NUL |
| Parser.Parse | src/common/parse.c:62-116 | the loop in place leaves the buffer, the stored pointers and the state that the automaton defines |
| Parser.Finish | src/common/parse.c:75-102 | a rule that ends a token stores exactly the text since its start and leaves all earlier strings alone |
| Urls.UrlIsRead | src/common/url.c:32-96 | the table accepts exactly the texts, and stores exactly the fields, of a reading that is stated without automaton or buffer |
| Urls.UrlBuf.UrlParse | src/common/url.c:32-96 | the fields and the verdict of that reading, for the string in place; fields not read keep their values |
| Urls.UrlBuf.UrlbufParse | src/common/url.c:10-30 | refuses texts over 1024 bytes, drops the last byte of one of exactly 1024, and otherwise reads the text |
| Urls.UrlRoundTripIff | src/common/url.c:208-226 | parsing a printed url gives it back if and only if it is printable |
| Urls.ReadUrlSurvivesIff | src/common/url.c:208-226 | a url that was read survives printing and reading again if and only if it has no query, its host needs no brackets, and it can be told by a path where it has no host; without brackets in the text and with a host, if and only if it has no query |
| Urls.BracketsAreLost | src/common/url.c:208-226 | a concrete url with a bracketed host that is printed as another url |
| UrlLaws.UrlTextIsRead | src/common/url.c:32-96 | a url put together from scheme, host with or without brackets, port, path and query is read as exactly these parts |
| UrlLaws.HostIsRead | src/common/url.c:48-51 | a text without separators is a host, also with a colon behind it |
| UrlLaws.HostPortIsRead | src/common/url.c:58-59 | without a scheme, what follows the colon is a port, and perhaps a path and a query |
| UrlLaws.PathAloneIsRead | src/common/url.c:53-56 | a text that begins with one slash is a path, and perhaps a query |
| UrlLaws.JunkIsRefused | src/common/url.c:74-77 | anything but a colon or a slash behind a closing bracket is refused |
| UrlLaws.OpenBracketIsIgnored | src/common/url.c:71-72 | a bracket that is not closed is accepted, and nothing is read |
| UrlLaws.PassedOver | src/common/url.c:61 | anything between the first two slashes behind a scheme is passed over |
| Forms.EscapeIsNotNul | src/common/url.c:115-117 | no escape inserts a NUL |
| Forms.UnquoteHex | src/common/url.c:98-122 | decodes exactly two characters that scan as a non-zero hex number, and otherwise changes nothing |
| Forms.Unquote | src/common/url.c:124-151 | the string in place becomes what it stands for, the verdict says whether every escape was good, and nothing outside the string is touched |
| Forms.ItemIsSplitOff | src/common/url.c:162-181 | the table splits off exactly the first item, and ends in one of the two good states |
| Forms.Query.Decode | src/common/url.c:153-206 | one item is taken off the query string, 1 exactly at its end, never -1; strings returned earlier are not disturbed |
| Forms.Query.DecodeAll | src/common/url.c:153-206 | calls until the end give every item of the query string, in order, and all their strings are still there in the shared buffer |
| Forms.QuotedMeans | src/common/url.c:124-151 | however a string was quoted, unquoting gives it back |
| FormLaws.EscapeIsRead | src/common/url.c:98-151 | a percent sign and two hex digits of either case stand for the byte with that number |
| FormLaws.CharacterIsRead | src/common/url.c:124-151 | a plus stands for a space, and every other character but the percent sign for itself |
| FormLaws.CutEscapeIsRefused | src/common/url.c:98-122 | an escape that is cut short is reported |
| FormLaws.BadEscapeIsRefused | src/common/url.c:98-122 | so is one that is not a number, or is nought |
| FormLaws.PairIsRead | src/common/url.c:162-181 | a name, an equals sign and a value make an item, up to the next ampersand |
| FormLaws.NameIsRead | src/common/url.c:162-181 | a name alone makes an item too |
| Forms.FormKept | src/common/url.c:153-206 | decoding a joined list of quoted items gives back all of them but a last one that is an empty name without a value |
| Forms.FormRoundTripIff | src/common/url.c:153-206 | decoding a joined list of quoted items gives the list back if and only if the last one is not an empty name without a value |
| Forms.FormTransfer | src/common/url.c:153-206 | end to end: any list of NUL-free items that is quoted, joined and decoded in place comes back, if and only if its last item is not an empty name without a value |

## Left out

- `dns_resolve_async` and the non-event mode of `dns_resolve_sync`: no task owns such a resolve, and the multiplexer's promises are about tasks.
- Errors of sockets, select(), allocation and the clock inside the resolver: `dns_resolve` then frees a resolve that may still be queued.
- `dns_resolve_multi`, and responses in several packets: the queue treats them as one query.
- Records and their data (`dns_unpack_record`, `dns_unpack_rdata`, `dns_pack_record`): they add fields, not harder properties, to names and questions; `dns_pack_u32` truncates to 16 bits, so no time-to-live round trip is claimed.
- The `z` bits of the header, which the code writes as zero and ignores.
- `event_main_yield` and tasks registered for several events at once: the bookkeeping is about `event_yield` and `event_sleep`.
- Fairness of the main loop: a timeout is served only when nothing else is ready; progress is stated as a bound on steps, and time only as the least after which a query is given up.
- `event_register` on an event whose destruction is pending is allowed, as in the code; that the caller should not do so is not enforced.
- `stream_read_string`, which drops buffered bytes past its limit, and `stream_write_file` with sendfile().
- SSL and TCP transports, `getaddrinfo`, files and logging: a transport is an oracle that delivers non-empty pieces, and a file one that takes non-empty pieces.
- Formatting by printf beyond the chunk size: a formatted text is a parameter.
- PARSE_INT and PARSE_UINT tokens, and the request, response and header tables of http.c: they are further clients of the same automaton.
- `tokenize`, `src/server/*` and `src/client/*`: flag checks and glue over the parts above.
- `str_copy` and the string tables: they would only add easy members.
- Urls.UrlRoundTripIff: covers parsing into empty fields; with default values in the fields the reading of `Urls.UrlIsRead` says what is kept.
- Http.Http.ReadChunkedFile: about a file whose write() may return 0 without failing it says only that the file received what was delivered; the code then skips what is left of the chunk.
