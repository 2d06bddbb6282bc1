# A Dafny model of the CustomHttp event server

The server is a multi-process epoll HTTP server. This project models the parts of it that carry protocols and
invariants and proves what they keep, for all inputs, all runs and all interleavings. `dafny verify dfyconfig.toml`
checks the whole project.

| part | files |
|---|---|
| lock-free queue, every atomic access one step | `LockFreeQueue`, `QueueTheorems`, `QueueSingleProducer`, `QueueProgress` |
| tickets that put fragments back in order across workers | `TicketPipeline`, `PipelineTheorems` |
| the context after its request is complete, tickets over several tenancies | `ContextUse`, `TicketReuse` |
| incremental HTTP parser | `HttpText`, `HttpSpec`, `HttpParser`, `HttpMessage`, `HttpRoundTrip`, `HttpTheorems` |
| where the parser does not return, and what it does not support | `HttpSpins`, `HttpCuts`, `HttpRfc`, `HttpRejects` |
| connection pool, recycling, generations | `ConnectionPool`, `PoolTheorems`, `PoolObjects` |
| timer queue, and pool and timers together | `TimerQueue`, `Sessions` |
| byte buffer and partial writes | `Buffer`, `SendPath`, `SendObjects` |
| log formatter | `Formatter`, `FormatterReads`, `FormatterLoops` |
| cached and fixed thread pool | `ThreadPool` |
| token bucket and leaky bucket | `RateLimiters` |
| chunked body of a file | `ChunkedBody` |

How the source's form is kept. Code that runs under several threads is a transition system: one step for each atomic
access of the queue, and one for each locked region elsewhere, over any number of threads. Objects that the source changes in
place are classes (`HttpRequest`, `HttpContext`, the pool and its connections, the timer queue, `Buffer`, the sending
connection, the worker pool, the two limiters); each method's contract equates its new state with a function of the
old one, and the theorems are about those functions and their runs. The formatter's loops work on arrays.

What an answer of the outside world can be is a parameter: received chunks, results of `send`, whether epoll took a
socket, times, time-outs. Memory is sequentially consistent and queue nodes are never reused. Widths are explicit where
they matter: tickets are taken modulo 2^32, generation stamps and format widths modulo 2^64, the parser's lengths are
64-bit unsigned, `sendCount` is a signed 32-bit `int`.

## What the proofs say about the code

Several properties that one would expect hold only under a condition. Each is proved with its exact condition:

- The queue's tail update after a link is a plain store, so the tail can fall behind the head and a dequeue can follow
  a null `next`. This is impossible for all runs exactly when at most one thread enqueues
  (`QueueSingleProducer.SafeIffOneProducer`). The receive queue has one producer, the epoll thread; the send queue has
  as many as there are workers.
- The ticket keeps the other workers out of the parser only. A worker whose fragment completed the request hands the
  ticket on and then handles the request and resets the context, and meanwhile another may parse into it. All runs use
  an open context exclusively exactly when there is at most one worker (or nothing to complete)
  (`ContextUse.ExclusiveIff`); with any number of workers they do if the client sends nothing until the reset
  (`ContextUse.WaitingClientIsSafe`).
- `GetOneToUse` starts the tickets of a new tenancy at 0, but `reset` leaves the ticket the context expects. The first
  fragment of a tenancy passes its wait without a time-out exactly when the fragments counted before are a multiple of
  2^32 (`TicketReuse.FirstOfTenancyPassesIff`), and a later fragment can be parsed ahead of it
  (`TicketReuse.NextTenancyOvertakes`).
- A message is dropped at its check exactly when its connection was closed after the fragment was received
  (`TicketReuse.CheckPassesIff`); a worker past the check is not stopped any more.
- A field line without a colon is an error only when the chunk ends in the head behind it (`HttpRejects.BadLineRefused`);
  with the whole request in one chunk the error is noted, and the request answered as if the line were not there
  (`HttpRejects.BadLineIgnored`).
- A response survives partial writes exactly when the first `send` does not return 0 for a response that has bytes
  (`SendPath.ResponseConservedIff`). Bytes left over are ever sent exactly when the 64-bit generation fits the `int` in
  `sendCount` (`SendPath.PendingLeavesIff`). A close from the write handler leaves the send buffer as it is, and reuse
  does not clear it: the next tenancy gets its own bytes only exactly when nothing was pending at the close, that is,
  when the close came without an error or from the send thread (`SendPath.TenancySeparatedIff`,
  `SendPath.NextTenancyIff`).
- Closing keeps the pool sound exactly when the connection is not free (`ConnectionPool.RetireKeepsInvIff`,
  `Sessions.FinishCloseKeepsIff`). Every accept undone by an epoll failure leaves the online count one too high for
  good; after as many of them as there are workers every accept is refused (`Sessions.DriftRefusesEveryone`), and that
  state is reached in every configuration (`Sessions.DriftLocksOut`).
- An expired timer keeps timers and sessions paired exactly when users are not kicked: kicking drops the timer and, with
  the empty default handler, closes nothing (`Sessions.ExpireKeepsIff`).
- The thread pool's destructor ends with every task done exactly when the pool was started with at least one thread, or
  takes no tasks at all. A cached pool started with none loses a task too: its only thread can time out without looking
  at the queue again (`ThreadPool.DrainsIff`).
- The rate bounds hold exactly for rates (and, for the leaky bucket, capacities) that are not negative; the one unit by
  which the leaky bucket exceeds its rate is needed (`RateLimiters.LeakyNeedsTheUnit`).
- `parseRequest` has its early exit commented out, so a pass that does not advance is repeated for ever
  (`HttpSpins.SpinsForEver`). From a chunk that ends inside a request the call returns exactly when the chunk ends after
  a line break of the head, anywhere in a plain body, anywhere in the data of a part, or behind the closing delimiter of
  an upload (`HttpCuts.ReturnsIff`). In that last case the answer comes one chunk early, and what is left of the line
  break then sends the parser, which the worker has reset, spinning (`HttpCuts.EarlyAnswerThenSpins`).
- Of the requests of RFC 9112 the parser recovers exactly those that fit it (`HttpRfc.AnsweredIffFits`): a method other
  than HEAD that it knows, a request line of at most 1024 bytes, the spellings `Content-Length` and `Content-Type`
  although field names have no case, a length that fits an `int`, nothing behind the value of a field line, no second
  value for a name, the boundary as the last parameter, and a body only with POST and PUT.

The comments in the source say that an expired timer kicks its user out (`my_socket.h`, the time-out setting); the code
only drops the timer, and the model follows the code.

## Model

| member | source | states |
|---|---|---|
| LockFreeQueue.RunInv | my_nginx_event/include/threadPool/my_lockfreequeue.h:44-105 | For any threads and any interleaving the linked nodes always form one chain in link order, what was taken is a prefix of what was linked, the head is the last taken node, and every thread's local pointers are still true of the shared state |
| LockFreeQueue.TakeKeepsChain | my_nginx_event/include/threadPool/my_lockfreequeue.h:94-101 | A successful head exchange returns the first message linked and not yet taken |
| QueueTheorems.FifoHistory | my_nginx_event/include/threadPool/my_lockfreequeue.h:44-105 | In every reachable state the returned values in head-exchange order, followed by the values found by walking `next` from the head, are the enqueued values in link order: nothing lost, doubled or reordered, for any number of producers and consumers |
| QueueTheorems.StepRefinesQueue | my_nginx_event/include/threadPool/my_lockfreequeue.h:44-105 | Each atomic step either appends its own message (the link), removes the front (the head exchange) or leaves the abstract queue as it is |
| QueueTheorems.SizeAccounting | my_nginx_event/include/threadPool/my_lockfreequeue.h:57-100 | `size` is the number of queued messages, less the enqueues between link and increment, plus the dequeues between head exchange and decrement; exact when no call is in progress |
| QueueTheorems.EveryMessageIsLinked | my_nginx_event/include/threadPool/my_lockfreequeue.h:44-74 | The message of every enqueue call past its link step stands at exactly one place of the link order |
| QueueTheorems.FalseMeansEmptyDuringCall | my_nginx_event/include/threadPool/my_lockfreequeue.h:76-88 | A `false` answer implies an instant inside that very call at which the queue was empty |
| QueueSingleProducer.OneProducerIsSafe | my_nginx_event/include/threadPool/my_lockfreequeue.h:44-105 | With one producer and any number of consumers the head never passes the tail, the tail is last or one before last, and no dequeue follows a null `next` |
| QueueSingleProducer.TwoProducersGoWrong | my_nginx_event/include/threadPool/my_lockfreequeue.h:61-63 | Any two producers have a run that puts the tail behind the head and makes the next dequeue read through a null `next` |
| QueueSingleProducer.SafeIffOneProducer | my_nginx_event/include/threadPool/my_lockfreequeue.h:44-105 | All runs are safe if and only if at most one thread enqueues |
| QueueProgress.CallAloneEnds | my_nginx_event/include/threadPool/my_lockfreequeue.h:44-105 | From every reachable state, whatever the other threads are in the middle of, a thread that goes on alone ends its call within ten steps and five more for each link by which the tail lags behind |
| TicketPipeline.TicketIsExact | my_nginx_event/src/logic/my_slogic.cpp:63-68 | A 32-bit ticket match means the worker holds exactly the fragment expected next, because no more tickets are out than there are workers |
| TicketPipeline.RunInv | my_nginx_event/src/logic/my_slogic.cpp:52-73 | Every event keeps: messages leave the queue in ticket order, nothing between the context and the queue's end is missing, counters and histories agree |
| PipelineTheorems.AtMostOneParses | my_nginx_event/src/logic/my_slogic.cpp:63-73 | While a tenancy lasts, no two workers are between their wait and their ticket increment for the same connection |
| PipelineTheorems.ParsedInOrder | my_nginx_event/src/logic/my_slogic.cpp:63-73 | The parsed fragments are always a prefix of the received ones, and the context's ticket is their number modulo 2^32 (one behind while a worker is about to increment) |
| PipelineTheorems.Progress | my_nginx_event/src/threadPool/my_threadpool.cpp:100-128 | While a fragment is outstanding some worker can move: waiting workers never block each other for good |
| PipelineTheorems.EverySchedulePasses | my_nginx_event/src/threadPool/my_threadpool.cpp:100-128 | No schedule of worker steps is longer than the work left, and one that cannot go on has parsed everything received, in order |
| PipelineTheorems.DeliveredIsParsed | my_nginx_event/src/net/my_http_request_callback.cpp:34-42 | End to end: fragments delivered in any interleaving with any number of workers are parsed exactly once, in delivery order, for every connection |
| ContextUse.ExclusiveIff | my_nginx_event/src/logic/my_slogic.cpp:71-93 | Whatever the clients send, no state of any run has two workers inside the context of an open connection, between their wait and the end of the reset, if and only if there is at most one worker, no connection, or no fragment that completes a request |
| ContextUse.WaitingClientIsSafe | my_nginx_event/src/logic/my_slogic.cpp:71-93 | With any number of workers the context is used exclusively when nothing arrives on a connection while a completing fragment of it is queued, held or handled |
| ContextUse.CountedIsHandled | my_nginx_event/src/logic/my_slogic.cpp:71-93 | Whatever the others do, a worker that has counted a completing fragment handles its request, and one that has counted another is free |
| ContextUse.EveryRequestIsHandled | my_nginx_event/src/logic/my_slogic.cpp:52-93 | With every connection open no schedule of worker steps, handling and reset among them, is longer than the work left, and one that cannot go on has handled every completed request and parsed every fragment, in order |
| TicketReuse.CheckPassesIff | my_nginx_event/src/logic/my_slogic.cpp:55-59 | Over every run with any closes, reuses and time-outs: a worker goes from its check to its wait if and only if its connection has not been closed since the event that received the fragment, and otherwise drops the message; a fragment let through was received in the tenancy it is let into |
| TicketReuse.NothingElseDrops | my_nginx_event/src/logic/my_slogic.cpp:52-73 | A worker lets go of a message only at the check and when it has counted it, and counts only what it has parsed; a wait that runs out does not lose the fragment |
| TicketReuse.EveryMessageGetsThrough | my_nginx_event/src/logic/my_slogic.cpp:52-73 | After any run over any tenancies, with waits that may run out, no schedule of the workers is longer than the work left, and one that cannot go on has left no message queued or held |
| TicketReuse.WaitPassesIff | my_nginx_event/src/logic/my_slogic.cpp:63-72 | In every run over any tenancies, time-outs included, fragment k of a tenancy passes its wait if and only if the fragments counted on the connection object exceed k by a multiple of 2^32 |
| TicketReuse.FirstOfTenancyPassesIff | my_nginx_event/src/net/my_socket_conn.cpp:24-35 | The first fragment of a tenancy passes without a time-out if and only if the fragments counted before are a multiple of 2^32 |
| TicketReuse.OnlyCountingCounts | my_nginx_event/src/logic/my_slogic.cpp:71-73 | The count of a connection object, and with it the ticket its context expects, moves when a worker counts and at no other event: closing, reusing and time-outs leave it |
| TicketReuse.NextTenancyOvertakes | my_nginx_event/src/logic/my_slogic.cpp:63-72 | After one tenancy of one fragment, two workers have a run without time-outs in which the second fragment of the next tenancy is parsed and the first still waits |
| HttpText.FindIsFirst | my_nginx_event/src/http/my_http_context.cpp:31-34 | The search finds a match with none before it, or there is none |
| HttpMessage.AddPairsText | my_nginx_event/src/http/my_http_request.cpp:78-109 | Splitting a printed query gives back the map of its pairs, later keys replacing earlier ones |
| HttpMessage.RequestLineParsed | my_nginx_event/src/http/my_http_context.cpp:405-447 | The printed request line of section 3 of RFC 9112, with a method the parser knows and a query of pairs, gives back method, path, query map and version, at any length |
| HttpMessage.HeaderLinesRead | my_nginx_event/src/http/my_http_context.cpp:62-125 | The header loop reads the printed header lines in front of it into the map and goes on with what follows, untouched |
| HttpRoundTrip.PlainRun | my_nginx_event/src/http/my_http_context.cpp:165-181 | A chunk anywhere in a plain body is appended whole; the one that reaches Content-Length ends the request and no byte behind it is taken |
| HttpRoundTrip.DataLeft | my_nginx_event/src/http/my_http_context.cpp:313-315 | At every cut of part data the content length minus delimiter and received bytes is exactly the data still to come, so neither subtraction underflows |
| HttpRoundTrip.DataBeforeClosing | my_nginx_event/src/http/my_http_context.cpp:304-339 | A closing-delimiter look-alike inside the data does not end the part: the data is collected up to the true delimiter |
| HttpRoundTrip.DataAtClosing | my_nginx_event/src/http/my_http_context.cpp:341-367 | The true closing delimiter ends the upload with exactly the part's data collected |
| HttpRoundTrip.PartRun | my_nginx_event/src/http/my_http_context.cpp:182-371 | A chunk that starts at the body and ends in the data, or runs to the end, leaves the parser at that place with the data so far |
| HttpRoundTrip.HeadRun | my_nginx_event/src/http/my_http_context.cpp:60-158 | A chunk with the rest of the head leaves the parser right behind the blank line with map, boundary and length known |
| HttpTheorems.Advance | my_nginx_event/src/http/my_http_context.cpp:12-397 | One call takes the parser from any legal cut of the printed request to any later one and answers true exactly at the end |
| HttpTheorems.ChunksConcat | my_nginx_event/src/http/my_http_context.cpp:14-17 | The chunks of a session are the printed request cut into pieces, plus the bytes behind it |
| HttpTheorems.ParsedBack | my_nginx_event/src/http/my_http_context.cpp:12-397 | Print any request the parser supports (plain or multipart), cut it at any legal places, feed the pieces: every call returns, only the last answers true, and method, path, query, version, headers, length and body or uploaded part are those printed; an upload is in the body if the request's body has at most 1048576 bytes and in the file otherwise |
| HttpTheorems.AnsweredAgain | my_nginx_event/src/http/my_http_context.cpp:374-384 | Bytes that arrive after the last chunk and before the reset are answered with the same request again |
| HttpCuts.ReturnsIff | my_nginx_event/src/http/my_http_context.cpp:12-397 | From any legal cut, a call whose chunk ends inside the request returns if and only if it ends at a legal cut or behind the closing delimiter of an upload; in that last case it answers true and the request is recovered |
| HttpCuts.FirstCallReturnsIff | my_nginx_event/src/http/my_http_context.cpp:12-397 | The same for the first call of a connection, over every proper prefix of a supported request |
| HttpCuts.EarlyAnswerThenSpins | my_nginx_event/src/http/my_http_context.cpp:341-367 | An upload cut behind its closing delimiter is answered one chunk early, and the rest of its line break never returns from the reset parser |
| HttpRfc.AnsweredIffFits | my_nginx_event/src/http/my_http_context.cpp:12-447 | A request of RFC 9112 sent in one piece is answered true, without error, and given back as it was meant, if and only if it fits: method, line length, spelling of the field names, length, boundary, no trailing blanks, no conflicting lines, a body only with POST and PUT |
| HttpRfc.UnfitLineSpins | my_nginx_event/src/http/my_http_context.cpp:28-58 | A request with HEAD or another method the parser does not know, or with a request line over 1024 bytes, is never answered |
| HttpRfc.LengthRead | my_nginx_event/src/http/my_http_context.cpp:78-104 | The announced length is read if and only if the field is spelled `Content-Length` and the length fits an `int`, and then it is the body's |
| HttpRfc.BoundaryRead | my_nginx_event/src/http/my_http_context.cpp:129-156 | The boundary read from a multipart Content-Type is what stands behind the first `boundary=` up to the end of the value, bare, in quotes, or behind a quote that is not closed, and no other |
| HttpRejects.LineAcceptedIff | my_nginx_event/src/http/my_http_context.cpp:405-447 | A request line is accepted if and only if it is a known method, a target without spaces and HTTP/1.0 or HTTP/1.1 with one space between them, and then method and version are the line's |
| HttpRejects.BareItemDropped | my_nginx_event/src/http/my_http_request.cpp:78-109 | An item of a query without `=` is dropped, wherever it stands |
| HttpRejects.FieldLineRead | my_nginx_event/src/http/my_http_context.cpp:109-118 | Blanks around the colon of a field line belong neither to the name nor to the value |
| HttpRejects.LengthReadAs | my_nginx_event/src/http/my_http_context.cpp:88-100 | A length is read behind white space; without a digit there, or out of the range of an `int`, it is an error |
| HttpRejects.SignedLengthReadAs | my_nginx_event/src/http/my_http_context.cpp:88-100 | The same behind a sign |
| HttpRejects.NegativeLength | my_nginx_event/src/http/my_http_context.cpp:88-94 | A negative length becomes a huge unsigned one, and a body is awaited |
| HttpRejects.BadLineIgnored | my_nginx_event/src/http/my_http_context.cpp:109-124 | With the whole request in one chunk a field line without a colon is noted as an error, and the call answers true with the request as it is without that line |
| HttpRejects.BadLineRefused | my_nginx_event/src/http/my_http_context.cpp:109-124 | When the chunk ends in the head behind such a line the call answers with an error and the parser is at its start again |
| HttpRejects.UploadWithoutPart | my_nginx_event/src/http/my_http_context.cpp:188-230 | A body that begins with the closing delimiter completes the upload at once, with nothing collected |
| HttpRejects.PreambleNotCounted | my_nginx_event/src/http/my_http_context.cpp:188-295 | What stands before the first delimiter is skipped, and not counted as received |
| HttpSpins.SpinsForEver | my_nginx_event/src/http/my_http_context.cpp:387-389 | Once a pass of the loop does not advance, every later pass leaves state, buffer and position as they are, so the loop condition stays true |
| HttpParser.HttpRequest.SetQueryParameters | my_nginx_event/src/http/my_http_request.cpp:78-109 | The loop over `&` adds exactly the pairs of the text and changes nothing else |
| HttpParser.HttpRequest.ProcessLine | my_nginx_event/src/http/my_http_context.cpp:405-447 | Refines the line function that `RequestLineParsed` is about, failures included |
| HttpParser.HttpContext.HeaderLoop | my_nginx_event/src/http/my_http_context.cpp:62-125 | The in-place header loop refines the header function, malformed lines and early ends included |
| HttpParser.HttpContext.MultipartPass | my_nginx_event/src/http/my_http_context.cpp:188-370 | The inner loop over part header and part data refines its function |
| HttpParser.HttpContext.ParseRequest | my_nginx_event/src/http/my_http_context.cpp:12-397 | The whole call refines the parser function of the theorems, the reset after an error and the endless case included |
| HttpParser.HttpContext.Reset | my_nginx_event/include/http/my_http_context.h:37-46 | Brings the parser back to its start state |
| ConnectionPool.DuplicateCheckIsExact | my_nginx_event/src/net/my_socket_conn.cpp:111-118 | Comparing ids finds a connection in the recycle list if and only if it is there |
| ConnectionPool.GetKeepsInv | my_nginx_event/src/net/my_socket_conn.cpp:68-94 | Taking a connection, growing the pool if need be, hands out one that is in no list and keeps lists, ids and counters right |
| ConnectionPool.RetireKeepsInvIff | my_nginx_event/src/net/my_socket_conn.cpp:107-126 | A close, first or repeated, keeps the partition into free, recycle and in use exactly when the connection is not free |
| ConnectionPool.DiscardKeepsInvIff | my_nginx_event/src/net/my_socket_conn.cpp:159-165 | An immediate close keeps it exactly when the connection is in neither list |
| ConnectionPool.SweepKeepsInv | my_nginx_event/src/net/my_socket_conn.cpp:141-151 | A recycler pass keeps the partition, the ids and the counters |
| ConnectionPool.SweepOneKeepsInv | my_nginx_event/src/net/my_socket_conn.cpp:141-151 | So does the recycler's work on a single entry, between two of which connections may be taken |
| ConnectionPool.SweepIsSteps | my_nginx_event/src/net/my_socket_conn.cpp:140-152 | A pass that nobody interrupts is made of these single steps |
| PoolTheorems.RunKeepsThePool | my_nginx_event/src/net/my_socket_conn.cpp:48-165 | Over every run: no duplicates, distinct ids, exact counters, in-use connections counted by total less free less recycling, and an online count too large by exactly the number of immediate closes |
| PoolTheorems.StepMovesGeneration | my_nginx_event/src/net/my_socket_conn.cpp:24-40 | A connection's generation goes up by one exactly when its status changes |
| PoolTheorems.StampPassesIff | my_nginx_event/src/logic/my_slogic.cpp:55-59 | The stamp check passes if and only if the number of status changes since the stamp is a multiple of 2^64 |
| PoolTheorems.StampedTenancy | my_nginx_event/src/net/my_socket.cpp:749-754 | A message stamped in use passes the check within 2^64 events if and only if the connection has stayed in use all the time |
| PoolTheorems.TakeGivesSocket | my_nginx_event/src/net/my_socket_conn.cpp:24-35 | A taken connection has the socket and no closing time, and no other connection changes |
| PoolTheorems.CloseNowFrees | my_nginx_event/src/net/my_socket_conn.cpp:159-165 | An immediate close leaves the connection last in the free list with its socket at -1, and no other connection changes |
| PoolTheorems.RecyclerFreesTheRipe | my_nginx_event/src/net/my_socket_conn.cpp:140-152 | A recycler pass frees exactly the closed connections whose closing time and the waiting time are over; the others wait on |
| PoolTheorems.ClosedIsFreed | my_nginx_event/src/net/my_socket_conn.cpp:135-153 | In every run a closed connection is free after the first pass that comes late enough |
| PoolTheorems.ReuseWaits | my_nginx_event/src/net/my_socket_conn.cpp:135-153 | Between the close of a connection and its next use lies a recycler pass, or a step of one, at least the configured time after the close |
| PoolObjects.Pool.GetConnection | my_nginx_event/src/net/my_socket_conn.cpp:68-94 | The in-place operation on shared objects refines the event and returns the connection it names |
| PoolObjects.Pool.CreateConnections | my_nginx_event/src/net/my_socket_conn.cpp:71-82 | The growth loop appends fresh connections with the next ids to both lists |
| PoolObjects.Pool.InRecycleQueue | my_nginx_event/src/net/my_socket_conn.cpp:107-126 | The search by id and the retirement refine the close event |
| PoolObjects.Pool.CloseConnection | my_nginx_event/src/net/my_socket_conn.cpp:159-165 | Refines the immediate close |
| PoolObjects.Pool.RecycleRipe | my_nginx_event/src/net/my_socket_conn.cpp:140-152 | The loop that erases while it iterates moves exactly the ripe connections, in order, and keeps the others |
| TimerQueue.ChangesStayConsistent | my_nginx_event/src/net/my_socket_time.cpp:10-75 | Every change leaves the map sorted, its size counted, and the cached time at the earliest key |
| TimerQueue.TakingLeavesFewerDue | my_nginx_event/src/net/my_socket_time.cpp:42-61 | Taking an expired entry lowers the number of due entries by one although it may be put back, which is why the drain ends |
| TimerQueue.DrainIs | my_nginx_event/src/net/my_socket_time.cpp:95-102 | Closed form of a drain: the due prefix comes out, and the map left has the rest with the due entries behind every key up to now plus the waiting time |
| TimerQueue.DrainTakesExactlyTheDue | my_nginx_event/src/net/my_socket_time.cpp:95-102 | Each expired entry is returned once in key order, none is left, and without kicking every connection keeps its entries |
| TimerQueue.WatchedWithout | my_nginx_event/src/net/my_socket_time.cpp:64-75 | A deletion removes every entry of that connection and none of another |
| TimerQueue.AddedThenDeleted | my_nginx_event/src/net/my_socket_time.cpp:10-75 | Deleting a connection takes back exactly the entry added for it |
| TimerQueue.Queue.constructor | my_nginx_event/src/net/my_socket.cpp:89-92 | The waiting time is the configured one above five seconds, and five seconds otherwise |
| TimerQueue.Queue.GetOverTimeTimer | my_nginx_event/src/net/my_socket_time.cpp:42-61 | Refines the expiry function in place |
| TimerQueue.Queue.DeleteFromTimerQueue | my_nginx_event/src/net/my_socket_time.cpp:64-75 | The erasing loop removes exactly the connection's entries and recounts the size |
| TimerQueue.Queue.DrainExpired | my_nginx_event/src/net/my_socket_time.cpp:95-102 | The drain loop ends and refines the drain function |
| Sessions.StepKeepsSessions | my_nginx_event/src/net/my_socket.cpp:414-431 | Accept, both halves of a close, expiry, recycling and listening keep pool, timers and open connections in step |
| Sessions.TimersMatchSessions | my_nginx_event/src/net/my_socket_accept.cpp:77-153 | In every reachable state there is exactly one timer for each accepted connection whose close has not begun, stamped with its tenancy, and no other; the size is the map's and the cached time its earliest key |
| Sessions.FinishCloseKeepsIff | my_nginx_event/src/net/my_socket.cpp:414-431 | The second half of a close keeps all of this exactly when it names neither a free connection nor one that is open again |
| Sessions.ExpireKeepsIff | my_nginx_event/src/net/my_socket_time.cpp:42-61 | An expiry keeps it exactly when users are not kicked or nothing is due |
| Sessions.ExpirePostpones | my_nginx_event/src/net/my_socket_time.cpp:42-61 | Without kicking, an expiry with the earliest timer due puts that one entry back to run out the idle time from now, and otherwise changes nothing |
| Sessions.DriftRefusesEveryone | my_nginx_event/src/net/my_socket_accept.cpp:77-148 | The online count exceeds the connections handed out by the number of undone accepts, and as many of these as workers refuse every later accept |
| Sessions.DriftLocksOut | my_nginx_event/src/net/my_socket_accept.cpp:143-148 | In every configuration, as many undone accepts as there are workers lead to a state in which nobody is connected and every accept is refused |
| Sessions.AcceptsIff | my_nginx_event/src/net/my_socket_accept.cpp:77-153 | In every reachable state an accept opens one new session, or counts as undone, if and only if users and undone accepts are fewer than the workers and the pool is at most five times as large or has as many free connections; otherwise it changes nothing |
| Sessions.CloseInSteps | my_nginx_event/src/net/my_socket.cpp:414-431 | The two halves of a close, one step after the other, are the whole close |
| Sessions.ListenTakes | my_nginx_event/src/net/my_socket_conn.cpp:68-94 | A listening socket takes a connection that was not in use, and opens no session |
| Sessions.RecycleFrees | my_nginx_event/src/net/my_socket_conn.cpp:140-152 | A recycler pass frees exactly the closed connections that have waited long enough and leaves sessions, timers and counts alone |
| Sessions.CloseIsFinal | my_nginx_event/src/net/my_socket.cpp:414-431 | A whole close leaves the connection waiting for the recycler, its socket closed and without a timer, and closing it again at any time changes nothing |
| Sessions.AcceptThenClose | my_nginx_event/src/net/my_socket_accept.cpp:110-153 | An accept gives the connection its socket and its timer, and the close after it restores the timer map, its size, the open connections and the online count |
| Sessions.NeverMoreSessionsThanWorkers | my_nginx_event/src/net/my_socket_accept.cpp:77-81 | In every reachable state there are at most as many open sessions as worker connections |
| Sessions.PoolStaysSmall | my_nginx_event/src/net/my_socket_accept.cpp:83-93 | Once listening has begun the pool never has more than six times the worker connections |
| Buffers.Buffer.Append | my_nginx_event/include/http/Buffer.h:84-89 | Appends to the byte sequence, whatever growth or compaction it takes |
| Buffers.Buffer.MakeSpace | my_nginx_event/include/http/Buffer.h:109-122 | Room is made by growing or by moving, the contents stay |
| Buffers.Buffer.MoveDown | my_nginx_event/include/http/Buffer.h:117-118 | The overlapping copy into the gap moves the contents unharmed |
| Buffers.Buffer.Retrieve | my_nginx_event/include/http/Buffer.h:45-55 | Drops that many bytes from the front, or all of them |
| SendPath.ResponseConservedIff | my_nginx_event/src/net/my_socket.cpp:763-827 | For every sequence of kernel answers, bytes on the wire and pending bytes make up the response until the close, and a close without an error comes after its last byte, if and only if the first send did not return 0 for a response with bytes |
| SendPath.FirstSendClosesIff | my_nginx_event/src/net/my_socket.cpp:770-796 | A send that took the whole response closes exactly for the error response or a connection that is not kept; a partial one keeps exactly the rest and closes nothing |
| SendPath.FlushFinishes | my_nginx_event/src/net/my_http_request_callback.cpp:78-112 | When the kernel takes as many bytes as are pending, in any portions and with any interruptions, one write event sends them all and closes exactly if asked to |
| SendPath.PendingLeavesIff | my_nginx_event/src/net/my_http_request_callback.cpp:72-76 | Left-over bytes go out with the next willing write event if the generation fits an `int`, and otherwise never |
| SendPath.FirstStopsAt | my_nginx_event/src/net/my_socket.cpp:763-822 | The send thread by the first answer that is no interruption: what is taken goes out and the rest joins the pending bytes; a full kernel leaves all to them; an error closes the connection and drops what was pending, and so does an answer of 0 when something was |
| SendPath.FlushStopsAt | my_nginx_event/src/net/my_http_request_callback.cpp:78-112 | The write handler sends what is taken until an answer stops it: a full kernel leaves the rest pending, any other answer closes for an error |
| SendPath.StaleIsSkipped | my_nginx_event/src/net/my_socket.cpp:749-754 | A message with another stamp than the present one changes nothing and asks the kernel nothing |
| SendPath.TenancyGetsItsOwn | my_nginx_event/src/net/my_socket.cpp:749-754 | After a close with nothing pending, over any messages of this and earlier tenancies, write events and kernel answers: the bytes on the wire and those pending come from responses queued in this tenancy, none twice, and all is as if no other message had been there |
| SendPath.TenancySeparatedIff | my_nginx_event/src/net/my_socket_conn.cpp:24-40 | On a reused connection every response that is not answered with 0 is conserved, whatever the kernel answers, if and only if nothing was pending at the close |
| SendPath.OldBytesComeFirst | my_nginx_event/src/net/my_http_request_callback.cpp:78-112 | Otherwise the bytes left over go out on the new socket ahead of a response that could not be sent at once |
| SendPath.NextTenancyIff | my_nginx_event/src/net/my_http_request_callback.cpp:96-112 | After a tenancy with one response, the next tenancy gets its own bytes only, if and only if the connection was closed without an error or by the send thread |
| SendObjects.Connection.SendProc | my_nginx_event/src/net/my_http_request_callback.cpp:116-134 | Repeats while interrupted; the wire grows by exactly the reported bytes |
| SendObjects.Connection.FirstSend | my_nginx_event/src/net/my_socket.cpp:748-828 | The send thread's handling of one message, over two real buffers, refines the first step of the theorems |
| SendObjects.Connection.WriteReady | my_nginx_event/src/net/my_http_request_callback.cpp:72-113 | The write handler's guard and loop refine the write event |
| Formatter.DigitsDenote | my_nginx_event/src/logger/my_logger.cpp:290-325 | The printed digits are a numeral of the base and denote the number |
| Formatter.DigitsAreShortest | my_nginx_event/src/logger/my_logger.cpp:290-325 | No numeral of the same value is shorter |
| Formatter.WordsFitTwentyDigits | my_nginx_event/src/logger/my_logger.cpp:281-288 | Every 64-bit value fits the scratch area in either base |
| Formatter.PaddedIs | my_nginx_event/src/logger/my_logger.cpp:327-342 | With room, a number prints as fill characters up to the width followed by the shortest numeral of its value |
| FormatterReads.SignedRenders | my_nginx_event/src/logger/my_logger.cpp:421-456 | `%d`, `%i` and `%L` with any width: the word as a signed 64-bit number, a minus sign in front, fill characters up to the width, the shortest numeral |
| FormatterReads.UnsignedRenders | my_nginx_event/src/logger/my_logger.cpp:377-456 | With `u`, `x` or `X`: the unsigned word in the base and the letters of the flag, with the width and the zero or blank fill |
| FormatterReads.PointerRenders | my_nginx_event/src/logger/my_logger.cpp:457-463 | `%p`: sixteen upper-case hexadecimal digits of the word |
| FormatterReads.PidRenders | my_nginx_event/src/logger/my_logger.cpp:473-476 | `%P` with any width: the low 32 bits as a signed number |
| FormatterReads.TextRenders | my_nginx_event/src/logger/my_logger.cpp:464-472 | `%s`: the string up to its first NUL |
| FormatterReads.OtherRenders | my_nginx_event/src/logger/my_logger.cpp:516-518 | Any other character behind a percent sign stands for itself |
| FormatterReads.RealRenders | my_nginx_event/src/logger/my_logger.cpp:477-515 | In exact arithmetic `%.nf`: a minus sign for a negative number, the whole part with the width, the point, and a fraction of exactly n digits, together within half a unit of the last place |
| FormatterReads.WholeRenders | my_nginx_event/src/logger/my_logger.cpp:477-501 | `%f` without places: the whole part of the amount, not rounded |
| Formatter.DecimalReadsBack | my_nginx_event/src/logger/my_logger.cpp:425-437 | `%d` of every 64-bit value reads back as its signed value, the most negative one included |
| Formatter.RealIsRounded | my_nginx_event/src/logger/my_logger.cpp:477-515 | In exact arithmetic `%.nf` prints two numbers within half a unit of the last place, the fraction with exactly n digits, up to the 19 places a word holds |
| Formatter.LiteralRenders | my_nginx_event/src/logger/my_logger.cpp:542-545 | A format without directives renders as itself |
| Formatter.RenderConcat | my_nginx_event/src/logger/my_logger.cpp:366-546 | A format that ends outside a directive is a unit: followed by another it renders the same, and the other gets the arguments it left |
| FormatterLoops.PrintDecimal | my_nginx_event/src/logger/my_logger.cpp:290-309 | The 32-bit and the 64-bit loop both leave the decimal digits of the value at the end of the scratch area, never before its start |
| FormatterLoops.PrintHex | my_nginx_event/src/logger/my_logger.cpp:310-325 | The same for the hexadecimal loops and their tables |
| FormatterLoops.SprintfNum | my_nginx_event/src/logger/my_logger.cpp:278-345 | Writes the first bytes of the padded number that fit before `last`, and nothing else |
| FormatterLoops.PutText | my_nginx_event/src/logger/my_logger.cpp:465-472 | Copies a string up to its NUL or the end of the room |
| FormatterLoops.ParseDirective | my_nginx_event/src/logger/my_logger.cpp:371-417 | The loops over width, flags and precision read the directive, widths wrapping at 64 bits |
| FormatterLoops.Vslprintf | my_nginx_event/src/logger/my_logger.cpp:354-549 | For every format that ends outside a directive, with fitting arguments: the buffer gets exactly the first bytes of the unbounded rendering, as many as fit, and no byte outside them changes |
| ThreadPool.StepTakesOnce | my_nginx_event/test/threadpool/include/threadpoolfinal.hpp:266-366 | Every step keeps each taken task either done once or with exactly one worker |
| ThreadPool.CountsWhileRunning | my_nginx_event/test/threadpool/include/threadpoolfinal.hpp:266-506 | While the pool runs: the thread count is the size of the thread map and stays between initial size and threshold, idle and task counts are exact |
| ThreadPool.OnlyThreadTimesOut | my_nginx_event/test/threadpool/include/threadpoolfinal.hpp:298-318 | A cached pool started with no thread has a run that ends with a task queued |
| ThreadPool.DrainsIff | my_nginx_event/test/threadpool/include/threadpoolfinal.hpp:385-422 | In all runs the destructor's wait ends only with every accepted task run exactly once and none queued or running, if and only if the pool starts with a thread or takes no task |
| ThreadPool.SubmitDoes | my_nginx_event/test/threadpool/include/threadpoolfinal.hpp:464-502 | In every run a submission joins the queue if and only if it has room, and a waiting thread is added if and only if it was accepted in cached mode with more tasks queued than threads waiting and fewer threads than the threshold |
| ThreadPool.Workers.SubmitTask | my_nginx_event/test/threadpool/include/threadpoolfinal.hpp:464-502 | Accepts a task while there is room and adds a thread under the cached mode's three conditions |
| ThreadPool.Workers.Locked | my_nginx_event/test/threadpool/include/threadpoolfinal.hpp:278-352 | One stay of a worker under the lock takes the front task, leaves for one of the two reasons, or waits |
| RateLimiters.TokenBoundIff | my_nginx_event/src/middleware/Rate_Limiting_Algorithm/TokenBucket.cpp:11-30 | In every run and window the tokens handed out are at most capacity plus rate times the window, if and only if the rate is not negative |
| RateLimiters.RefusedIff | my_nginx_event/src/middleware/Rate_Limiting_Algorithm/TokenBucket.cpp:11-30 | In every run a call is refused if and only if it asks for more than the capacity, or for more than a bucket full at the start or at some earlier call and the rate since then leave after what was handed out |
| RateLimiters.WaitedCallGranted | my_nginx_event/src/middleware/Rate_Limiting_Algorithm/TokenBucket.cpp:11-30 | A call for no more than the capacity that comes late enough after the one before it, for the rate to bring what it asks for, is granted |
| RateLimiters.LeakyBoundIff | my_nginx_event/test/Rate_Limiting_Algorithm/LeakyBucketLimiter.h:13-34 | In every run and window the leaky bucket admits less than capacity plus rate times the window plus one, if and only if capacity and rate are not negative |
| RateLimiters.WaitedCallAdmitted | my_nginx_event/test/Rate_Limiting_Algorithm/LeakyBucketLimiter.h:13-34 | A call for no more than the capacity that waits for as much to leak is admitted |
| RateLimiters.LeakyRefusedOnlyIf | my_nginx_event/test/Rate_Limiting_Algorithm/LeakyBucketLimiter.h:13-34 | A call is refused only if it asks for more than the capacity, or with what was let through since the start or since some call overflows what the rate has leaked, up to a unit for each call |
| RateLimiters.LeakyNeedsTheUnit | my_nginx_event/test/Rate_Limiting_Algorithm/LeakyBucketLimiter.h:25-34 | No allowance smaller than one unit holds |
| RateLimiters.TokenBucket.TryConsume | my_nginx_event/src/middleware/Rate_Limiting_Algorithm/TokenBucket.cpp:11-20 | Refills and grants in place as the runs of the bound do |
| RateLimiters.LeakyBucketLimiter.TryConsume | my_nginx_event/test/Rate_Limiting_Algorithm/LeakyBucketLimiter.h:13-22 | Leaks and admits in place as the runs of the bound do |
| ChunkedBody.BlocksAre | my_nginx_event/src/app/demo1.cpp:378-389 | The blocks make up the file, none is empty, and all but the last have 8192 bytes, exact multiples included |
| ChunkedBody.EncodedFileDecodes | my_nginx_event/src/app/demo1.cpp:372-391 | A decoder after section 7.1 of RFC 9112 gets back exactly the file from its encoded body and leaves what follows the body |
| ChunkedBody.BuildBody | my_nginx_event/src/app/demo1.cpp:376-391 | The read loop over the stream builds the encoded body for every file |

## Left out

- TicketReuse.CheckPassesIff: generations count without a bound; that the 64-bit stamp comes round is `PoolTheorems.StampPassesIff`.
- QueueProgress.CallAloneEnds: a dequeue may end by following a null `next`, which `QueueSingleProducer` excludes for one producer.
- FormatterReads.RealRenders: exact reals, not doubles, up to the 19 places whose power of ten fits a word.
- RateLimiters.LeakyRefusedOnlyIf: one way only, because a call's leak rounds off less than a unit and how much depends on the times.
- Weak memory order, reuse of freed queue nodes and the queue's tags: steps interleave sequentially, node ids are fresh, and the tags take part in no exchange. The queue's `size` is not cut to 32 bits.
- TicketPipeline.RunInv: covers one tenancy of each connection, waits that do not run out, and workers that are free at their ticket increment; the events left out are those of `TicketReuse` (time-out, reuse) and `ContextUse` (handling, reset).
- PipelineTheorems.AtMostOneParses: ends at the ticket increment; what holds up to the end of the reset is `ContextUse.ExclusiveIff`.
- PipelineTheorems.DeliveredIsParsed: ends with the parse; the handling of the request, and with it what a route answers, is not part of this model.
- LockFreeQueue.RunInv: the retry loops are steps of a transition system, not Dafny loops, because other threads act between any two of their accesses.
- PipelineTheorems.Progress: assumes that no connection is closed meanwhile, no five-second wait expires and parsing does not throw; lost wake-ups are not modelled. Tickets of a reused connection are the subject of `TicketReuse`, which says nothing about progress.
- Each region under one lock is one event. The recycler holds the lock of its list for a whole pass, but the lock of the connection list only once for each entry; takes in between are covered by the event `RecycleOne`. It frees a connection a moment before it erases it from its list; both are one event here.
- PoolObjects.Pool.GetConnection: asks for at least one worker connection; with none the source's loop does not end.
- Sessions.StepKeepsSessions: the accept loop's system errors, the socket options and the address are left out; a run in which users are kicked is covered only by `ExpireKeepsIff`.
- `m_total_recyconnection_n` and `iSendCount` are changed in one direction only and say nothing; the flood check and ping times are not modelled.
- HttpTheorems.ParsedBack: takes supported requests and legal cuts. Every other cut is decided by `HttpCuts.ReturnsIff`, and requests of RFC 9112 that are not supported by `HttpRfc.AnsweredIffFits`, which has them in one piece; malformed requests are covered by `SpinsForEver` and by the refinement in `HttpParser` alone. The repeated-method assertion of a second failing pass counts as spinning.
- HttpRoundTrip.PartRun: chunks that end in the data or with the whole upload; those that end behind the closing delimiter are in `HttpCuts.ReturnsIff`.
- HttpMessage.RequestLineParsed: HEAD and a query that is not a list of pairs are not in it; HEAD is refused (`HttpRfc.UnfitLineSpins`).
- HttpRfc.AnsweredIffFits: requests framed by chunked transfer coding, a query that is not a list of pairs, more than one part in an upload, and repeated Content-Length or Content-Type lines are not among the requests it is about.
- HttpParser.HttpContext.ParseRequest: receive times, the upload file's name and opening (`urlDecode`, `sanitizeFilename`) are not modelled; a large upload's file is the bytes written to it.
- SendPath.ResponseConservedIff: one response is in flight on a connection with an empty send buffer (what a reused connection may have instead is in `SendPath.TenancySeparatedIff`); the order of several responses, which the send thread does not keep, and the limits in `msgSend` are left out, as is the recycler between two closes of the same connection.
- Formatter.RealIsRounded: exact reals stand for the source's doubles, so the rounding of a double is not modelled.
- FormatterLoops.Vslprintf: a format that ends inside a directive, or arguments of another kind than the directives ask for, are undefined in the source and excluded. `%f` is in exact reals, not doubles.
- ThreadPool.DrainsIff: a wake-up that never comes (a submission notifies the wrong condition) is not modelled, so nothing is said about when the wait ends; a worker's time-out may come at any moment.
- RateLimiters.TokenBoundIff: amounts and times are exact reals, not doubles.
- RateLimiters.LeakyBoundIff: amounts and times are exact reals, not doubles; amounts are not negative, and neither the amounts nor the leaked units overflow an `int`.
- Sockets, epoll, fork, signals, configuration files, sessions, routing, middleware dispatch, the databases, JSON, Range responses and the code under `delete` directories.
