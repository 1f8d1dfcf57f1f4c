# tinycoro, verified

A Dafny model of tinycoro, a C++20 coroutine library for Linux: its lock-free queues, the thread
pool on top of them, the `IoContext` executor that runs coroutines over epoll, the incremental HTTP
request parser, and the stream and server loops that put these together.

Concurrent code is modelled as a step system. Every atomic load, store and compare-exchange is one
step, the plain access to a slot is a step of its own, and any number of threads take steps in any
order. Single-threaded code that works by update is modelled by classes with loops, each method
proved against a function of the old state. Everything a program cannot control (what a coroutine
body does, what a socket delivers, what epoll reports, when the clock ticks) is a parameter, and
the results hold for all of its values.

| files | what they hold |
|---|---|
| `BitMask` | `pos & (Capacity - 1)` by bits, and why it is a remainder |
| `Mpmc`, `Spsc`, `ThreadPool` | the queues and the pool as step systems; the pool embeds the queue |
| `Text`, `HttpParsing` | the parser's string functions and the parser as a function |
| `HttpFragments`, `HttpGrammar`, `HttpUnfinished`, `HttpSessions` | splitting a stream, the accepted language, the unfinished requests, pipelining and memory |
| `Buffer`, `HttpParser`, `HttpReplies`, `ServeHttp` | the buffer and parser classes, the replies and a client that reads them, a whole HTTP connection |
| `Frames`, `Executor` | coroutine frames, and the executor with a plain map of armed waits |
| `ExecutorInvariant`, `ExecutorSteps`, `ExecutorRuns` | its invariant, why each operation keeps it, and what follows for whole runs |
| `EventLoop`, `WaitTable`, `IoRecords`, `Bodies`, `IoContext` | the executor class with descriptor table, epoll registrations and timer heap |
| `TcpStream` | reads and writes with a deadline, `close`, and the echo server |

The executor is described twice. `Executor` has coroutine frames with their owners, the ready queue
and a map from armed waits to deadlines. `IoContext` is the class of the source: per-descriptor
slots, epoll registrations, a timer heap whose entries are deleted lazily. Its ghost field `model`
is always the state of a run of `Executor`, so what is proved of all runs there holds of every
state of the class.

## What was found

- The parser's answer can depend on where the stream is split. A request line of exactly
  `request_line_bytes` bytes is accepted when it arrives together with its line end, and refused
  when the boundary of a read falls between the CR and the LF, because the check made without a
  line end counts the CR. `SplitMattersIff` shows that this is the only such case:
  fragmentation changes the answer if and only if the boundary falls there and the whole stream is
  not refused anyway. `SplitLineEndRefused` exhibits the family and `SplitLineEndExample` one
  member of it.
- Over a whole keep-alive connection the same is the only way in which the sizes of the reads can
  matter: `ReadsMatterIff` says when they do, by where the reads end in the stream.
- The over-limit check in `parse_body` is dead code (`BodyLimitUnreachable`).
- The error "no readiness or timer wake source" of `IoContext::run` cannot occur while tasks suspend
  only through the library's awaiters (`AlwaysWakeSource`, `RunRound`).

## Model

| member | source | states |
|---|---|---|
| BitMask.CapacityIsPowerOfTwo | include/tinycoro/queue.h:90-91 | the static assertion admits exactly the powers of two from 2 on |
| BitMask.SlotIsRemainder | include/tinycoro/queue.h:110 | for such a capacity, masking a position is taking its remainder |
| BitMask.SameSlotFarApart | include/tinycoro/queue.h:110 | two different positions in one slot are at least a whole lap apart |
| MpmcQueue.ReachableInv | include/tinycoro/queue.h:101-148 | the slot, ticket and thread invariant holds after every interleaving of any number of threads |
| MpmcQueue.PositionsBounded | include/tinycoro/queue.h:107-148 | dequeue_pos <= enqueue_pos <= dequeue_pos + Capacity always |
| MpmcQueue.DataRaceFree | include/tinycoro/queue.h:117-138 | no two threads are ever in the plain data access of one slot |
| MpmcQueue.ExactlyOnceInOrder | include/tinycoro/queue.h:107-148 | the consumer of ticket t gets what the producer of ticket t stored, no ticket is delivered twice, and each consumer's tickets come in order |
| MpmcQueue.NothingLostNothingInvented | include/tinycoro/queue.h:107-148 | while no pop is half done, the values popped and the values still queued are together exactly the values accepted |
| MpmcQueue.RefinesBoundedFifo | include/tinycoro/queue.h:107-148 | every step is a step of a bounded FIFO, which changes only at a successful compare-exchange |
| MpmcQueue.PushFailsIff | include/tinycoro/queue.h:107-127 | push reports full iff, at its load of the sequence number, the ticket one lap back is unreleased |
| MpmcQueue.PopFailsIff | include/tinycoro/queue.h:129-148 | pop reports empty iff, at that load, its ticket is unpublished |
| MpmcQueue.EmptyMeansEmpty | include/tinycoro/queue.h:129-148 | with no push in flight, empty means that the queue is empty |
| MpmcQueue.PushGoesOnIff | include/tinycoro/queue.h:109-126 | where push goes from its load of the sequence number: at the current position to the compare-exchange iff the slot is free and else to full; at a stale position back to the start iff that ticket is published, and else to a compare-exchange that must fail |
| MpmcQueue.PopGoesOnIff | include/tinycoro/queue.h:131-147 | the same for pop |
| MpmcQueue.StalePushExample | include/tinycoro/queue.h:109-126 | an execution in which a push reaches the compare-exchange with a position that is already taken |
| MpmcQueue.CallBounded | include/tinycoro/queue.h:107-148 | in every execution, a call has taken at most 5 + 2 * (advances of its position + spurious failures) steps of its own when it ends, and so far while it runs |
| MpmcQueue.PushAlone | include/tinycoro/queue.h:107-127 | a push that nobody interrupts and whose compare-exchange does not fail spuriously, started in any reachable state, appends its value in five steps if the slot is free and reports full in two if not |
| MpmcQueue.PopAlone | include/tinycoro/queue.h:129-148 | a pop under the same conditions takes the oldest value in five steps if it is published and reports empty in two if not |
| MpmcQueue.RetryMeansProgress | include/tinycoro/queue.h:109-147 | a retry that is not spurious proves that another thread advanced the position |
| MpmcQueue.RetriesPaidByProgress | include/tinycoro/queue.h:107-148 | lock freedom: over any stretch of a run, a call retries at most as often as its position advanced; with `CallBounded`, that bounds the steps of the call |
| ThreadPool.ReachableInv | src/thread_pool.cpp:31-84 | the pool's invariant holds after every interleaving of workers, shutdown, and calls of submit and take_errors made from outside or by running tasks |
| ThreadPool.PermitsMatchTasks | src/thread_pool.cpp:31-84 | free permits and permits in hand equal the accepted tasks not yet claimed, plus the live workers once shutdown has released its permits; also while tasks submit tasks |
| ThreadPool.PopFailsOnlyAfterRelease | src/thread_pool.cpp:66-84 | a worker finds the queue empty only after that release, with all accepted tasks claimed and its stop token set |
| ThreadPool.NoTaskLeftBehind | src/thread_pool.cpp:31-84 | workers that all wait on an empty semaphore have left no accepted task |
| ThreadPool.NoWorkerBlocks | src/thread_pool.cpp:44-84 | after the release a worker has exited, can go on, or waits in a submit of its task for the mutex, whose holder can go on |
| ThreadPool.DrainedExactlyOnce | src/thread_pool.cpp:31-84 | when all workers have exited, exactly the accepted tasks have been executed: every ticket that was granted, once, with the task of that ticket |
| ThreadPool.SubmitAnswers | src/thread_pool.cpp:31-42 | over any execution, submit, called from outside or by a running task, answers true iff its own steps appended its task, exactly once and nothing else; false iff the pool was no longer accepting, or the queue full, at one of its own steps |
| ThreadPool.AcceptedIsRun | src/thread_pool.cpp:31-84 | the task of a submit that answered true is executed at most once, by then or later, with its own ticket, and exactly once when all workers have exited |
| ThreadPool.EmptyRefused | src/thread_pool.cpp:31-34 | an empty function is refused and changes nothing |
| ThreadPool.SubmitAdvances | src/thread_pool.cpp:31-42 | every step of a submit brings it closer to its answer, but for the retries of the queue |
| ThreadPool.ErrorsConserved | src/thread_pool.cpp:61-79 | the exceptions that tasks throw are, one for one, those recorded (taken or still held) and those a worker is about to record; once all workers have exited, exactly those recorded |
| ThreadPool.ErrorsTaken | src/thread_pool.cpp:61-64 | take_errors hands over all errors held, in order, and changes nothing else |
| ThreadPool.WorkerProgress | src/thread_pool.cpp:66-84 | after the release, every worker step lowers a measure, but for spurious failures and the calls that tasks make |
| ThreadPool.OthersDoNotDelay | src/thread_pool.cpp:31-59 | nobody else can raise that measure |
| ThreadPool.ShutdownTerminates | src/thread_pool.cpp:44-84 | in every interleaving, the number of worker steps after the release is bounded by that measure plus four times the spurious failures and the calls that tasks make |
| ThreadPool.ShutdownReturns | src/thread_pool.cpp:44-59 | when shutdown returns, all workers have exited, nothing is accepted any more, and all accepted tasks have been executed |
| ThreadPool.ShutdownAdvances | src/thread_pool.cpp:44-59 | every step of shutdown brings it closer to its end |
| SpscQueue.RefinesBoundedSequence | include/tinycoro/queue.h:27-61 | popped values followed by the contents are the pushed values, at most Capacity - 1 are held, and the two threads never touch one slot |
| SpscQueue.AlwaysInBounds | include/tinycoro/queue.h:36-58 | no slot access ever leaves the buffer |
| SpscQueue.StepRefines | include/tinycoro/queue.h:30-61 | each step of either thread is a push that then answers true, a pop that then answers the value, or no change of a bounded sequence; the answers full and empty are given iff the sequence is |
| SpscQueue.PushCall | include/tinycoro/queue.h:30-43 | wait freedom: in any interleaving a push ends within four steps of its own, and answers true iff its value was pushed meanwhile |
| SpscQueue.PopCall | include/tinycoro/queue.h:51-61 | the same for a pop and the value popped |
| SpscQueue.FullIff | include/tinycoro/queue.h:32-35 | the full test is true iff Capacity - 1 elements are held |
| SpscQueue.EmptyIff | include/tinycoro/queue.h:55-57 | the empty test is true iff nothing is held |
| SpscQueue.SizeExact | include/tinycoro/queue.h:67-71 | size is exact when neither thread is inside an operation |
| Text.FindCrlfExtended | include/tinycoro/buffer.h:60-68 | what appending bytes does to the first line end |
| Text.TrimSplits | src/http_parser.cpp:11-17 | trimming removes exactly the characters of codes 9, 10, 13 and 32 at both ends |
| Text.IEqualsIff | src/http_parser.cpp:19-25 | two strings are equal without case iff one is the other with some letters of codes 65 to 90 and 97 to 122 exchanged for those 32 further on or back |
| Text.ParseSizeRoundTrip | src/http_parser.cpp:27-37 | parse_size reads back the decimal form of every size_t |
| Text.ParseSizeIff | src/http_parser.cpp:27-37 | parse_size accepts exactly the decimal forms of the size_t values, leading zeros allowed, and answers that value; the empty string is refused |
| Text.WordsSplit | src/http_parser.cpp:90-92 | stream extraction takes a word whole, whatever characters of codes 9 to 13 and 32 are around it, and goes on behind that |
| Text.FindColonIsFirst | src/http_parser.cpp:121-123 | the first colon, or none |
| HttpFragments.Resumes | src/http_parser.cpp:55-155 | parsing a prefix and going on with more bytes is parsing all of them at once, unless the boundary splits the line end at the limit |
| HttpFragments.IncompleteIsStable | src/http_parser.cpp:55-77 | parsing again without new bytes changes nothing |
| HttpFragments.FragmentationInvariance | src/http_parser.cpp:55-155 | any fragments give the verdict, request and rest of the whole stream, except in the split-line-end case, where they give an error |
| HttpFragments.SplitMattersIff | src/http_parser.cpp:79-85 | fragmentation changes the answer iff that case occurs in a stream that is not refused whole |
| HttpGrammar.CanonicalLineValid | src/http_parser.cpp:87-97 | a method, a path and a version written with single spaces are a valid request line iff the line is within the limit and the version is HTTP/1.0 or HTTP/1.1 |
| HttpGrammar.FieldIff | src/http_parser.cpp:119-142 | a header line is accepted iff it has a key, an agreeing Content-Length within the limit, and no coding but identity |
| HttpGrammar.CommonLength | src/http_parser.cpp:130-138 | the lengths of all Content-Length lines agree with the one used |
| HttpGrammar.LengthDecides | src/http_parser.cpp:119-138 | a header line whose key is Content-Length in any mixture of cases, with a decimal number behind the colon, fixes the length of the body |
| HttpGrammar.AcceptedIsParsed | src/http_parser.cpp:55-155 | every message of the grammar is parsed to its request, leaving what follows it |
| HttpGrammar.ParsedIsAccepted | src/http_parser.cpp:55-155 | whatever is parsed was a message of the grammar, consumed exactly |
| HttpGrammar.AcceptsExactly | src/http_parser.cpp:55-155 | the two together: which requests are read from which bytes, and what is left |
| HttpUnfinished.WaitingIsIncomplete | src/http_parser.cpp:79-155 | every unfinished request is waited on: a request line without its line end, valid lines and the beginning of another, or a head whose body is too short, all within the limits |
| HttpUnfinished.IncompleteIsWaiting | src/http_parser.cpp:79-155 | and nothing else is |
| HttpUnfinished.VerdictExactly | src/http_parser.cpp:55-155 | the verdict on every stream: complete iff it begins with a message of the grammar, incomplete iff it is an unfinished request, an error for all others |
| HttpSessions.ParseTakesFromFront | src/http_parser.cpp:55-155 | a parse takes bytes from the front and leaves the others as they are |
| HttpSessions.IncompleteIsBounded | src/http_parser.cpp:79-155 | an incomplete parse leaves at most the largest of the three limits |
| HttpSessions.BodyLimitUnreachable | src/http_parser.cpp:146-148 | no call of any connection, whatever it reads and in whatever pieces, reaches parse_body with a length beyond the limit |
| HttpSessions.Pipelining | src/http_parser.cpp:47-155 | concatenated requests followed by any suffix come out in order, and the suffix is left |
| HttpSessions.SplitLineEndRefused | src/http_parser.cpp:79-85 | every message with a request line of exactly the limit is accepted whole and refused when split inside its first line end |
| HttpSessions.SplitLineEndExample | src/http_parser.cpp:79-85 | such a message exists |
| HttpSessions.ReadsMatterIff | examples/http_echo.cpp:35-60 | over a whole keep-alive connection, the reads change what is served iff one of them ends inside the line end of a request line of exactly the limit and the stream in one piece does not end in an error at that request; the requests in front of it are served, and then an error ends the connection |
| Buffers.Buffer.constructor | include/tinycoro/buffer.h:17-18 | an empty buffer of at least one byte |
| Buffers.Buffer.HasWritten | include/tinycoro/buffer.h:27-31 | commits bytes that fit, and refuses others without change |
| Buffers.Buffer.Append | include/tinycoro/buffer.h:33-41 | appends to the contents, or fails on overflow without change |
| Buffers.Buffer.Consume | include/tinycoro/buffer.h:45-52 | drops a prefix of the contents, or refuses without change |
| Buffers.Buffer.FindCrlf | include/tinycoro/buffer.h:60-68 | finds the first line end |
| Buffers.Buffer.EnsureWritable | include/tinycoro/buffer.h:70-83 | makes room without changing the contents, by compaction or by growth to less than contents + 2 * len |
| HttpParsers.HttpParser.Reset | src/http_parser.cpp:47-53 | the state of a fresh parser |
| HttpParsers.HttpParser.Parse | src/http_parser.cpp:55-77 | parser and buffer end as the specification says |
| HttpParsers.HttpParser.ParseRequestLine | src/http_parser.cpp:79-101 | the same for the request line |
| HttpParsers.HttpParser.ParseHeaders | src/http_parser.cpp:103-144 | the same for the header loop |
| HttpParsers.HttpParser.ParseField | src/http_parser.cpp:119-142 | the same for one header line |
| HttpParsers.HttpParser.ParseBody | src/http_parser.cpp:146-155 | the same for the body |
| ServeHttp.ReadSome | src/tcp_stream.cpp:109-116 | a read makes room first, also if nothing arrives, appends the bytes that do, and keeps the buffer within the bound |
| ServeHttp.Connection | examples/http_echo.cpp:30-61 | over any run, the bytes sent are the replies the specification owes, in order, cut short only inside a write that fails, and the buffer stays within the limits' maximum + 2 * 16384 - 1 bytes |
| HttpReplies.ReplyReadsBack | examples/http_echo.cpp:22-47 | a client that reads a status line, header lines and as many bytes as these declare gets the status and the body of the reply, and not a byte more |
| HttpReplies.EchoReadsBack | examples/http_echo.cpp:36-40 | method, path and body of the request can be read back from the body of its reply |
| HttpReplies.DeliveredReadsBack | examples/http_echo.cpp:22-54 | from what a connection sends, that client reads back every reply that was written whole |
| Frames.DestroyedOnce | include/tinycoro/task.h:90-106 | destroying frames destroys exactly what they own, transitively, each frame once |
| ExecutorSteps.AwaitKeepsInv | include/tinycoro/task.h:94-113 | awaiting a Task moves its frame to the parent's Awaiter and keeps the executor's invariant |
| ExecutorSteps.FinishKeepsInv | include/tinycoro/task.h:29-47 | so does the final suspend point, for roots and for awaited frames |
| ExecutorSteps.MoveKeepsInv | include/tinycoro/task.h:77-85 | so does moving a Task |
| ExecutorSteps.DropKeepsInv | include/tinycoro/task.h:90-106 | so does destroying a Task or a finished Awaiter |
| ExecutorSteps.SpawnKeepsInv | src/io_context.cpp:37-59 | so does spawn |
| ExecutorSteps.DrainKeepsInv | src/io_context.cpp:118-130 | so does drain_completed |
| ExecutorSteps.ArmKeepsInv | src/io_context.cpp:152-173 | so does arming a wait |
| ExecutorSteps.CompleteKeepsInv | src/io_context.cpp:202-209 | so does completing one |
| ExecutorSteps.TeardownDestroysOnce | src/io_context.cpp:17-35 | the destructor destroys every started frame and what it owns once, and leaves only lazy frames that Tasks outside hold |
| ExecutorRuns.RunInv | src/io_context.cpp:17-309 | the invariant holds after every sequence of actions of coroutines, executor, kernel and clock |
| ExecutorRuns.NoTaskLost | src/io_context.cpp:118-209 | between resumptions, live roots are as many as ready entries and armed waits, and each has exactly one of these at the end of its chain |
| ExecutorRuns.AlwaysWakeSource | src/io_context.cpp:68-77 | with a live root and nothing ready, a wait is armed |
| ExecutorRuns.HandlesAreLive | src/io_context.cpp:112-150 | no handle in the queue, a wait slot, the completion list, the root map or a Task dangles or is held twice |
| ExecutorRuns.ContinuationIsLive | include/tinycoro/task.h:32-42 | control goes back to a live frame that awaits exactly the one that ends |
| ExecutorRuns.DestroyedOnce | include/tinycoro/task.h:90-106 | every frame ever created is live or destroyed, never both, and destroyed once |
| ExecutorRuns.TeardownDestroysAll | src/io_context.cpp:17-35 | destroying the context at any point destroys every frame once, and cancel calls made meanwhile change nothing, however many frames are already gone |
| ExecutorRuns.WaitsEndOnce | src/io_context.cpp:93-106 | an armed wait ends at most once in a run, is then enqueued once, with true only for its own readiness and false only for its own deadline or a cancel of its descriptor |
| ExecutorRuns.ResumedInOrder | src/io_context.cpp:132-150 | frames are resumed in the order in which they were enqueued |
| ExecutorRuns.CancelCompletes | src/io_context.cpp:93-106 | cancel ends the waits of both directions of its descriptor with false, and no other wait |
| ExecutorRuns.CancelQueues | src/io_context.cpp:93-106 | and appends to the ready queue exactly the frames that waited, the reader first |
| ExecutorRuns.DispatchCompletes | src/event_loop.cpp:131-151 | a round of dispatch ends with true exactly the waits whose direction was reported, errors and hang-ups counting for both |
| ExecutorRuns.DispatchOneQueues | src/event_loop.cpp:131-151 | one event appends exactly the frames whose direction it reports, the reader first |
| ExecutorRuns.ExpireCompletes | src/io_context.cpp:267-282 | expiry ends with false exactly the waits it lists |
| ExecutorRuns.ExpireQueues | src/io_context.cpp:267-282 | and appends exactly their frames, in that order |
| Bodies.FailsIff | src/io_context.cpp:118-130 | a resumption raises an exception iff a root returns with one during it, whatever else it does and whatever the destructors cancel |
| Bodies.BatchFailsIff | src/io_context.cpp:138-150 | a batch of resumptions raises one iff one of those it gets to does |
| Bodies.ResumedQueues | src/io_context.cpp:138-150 | a resumption leaves in the ready queue what was behind its frame, then what its spawns, yields and cancels made ready, in their order, then what the destructors of finished roots cancel |
| WaitTable.RollbackRestores | src/io_context.cpp:174-187 | the rollback restores table and channels, also when the other direction is armed |
| WaitTable.ActiveIff | src/io_context.cpp:259-265 | a heap entry is active iff its own wait is armed, whoever uses the descriptor now |
| WaitTable.DueOrderExists | src/io_context.cpp:267-282 | the waits that are due can always be put in order of their deadlines |
| EventLoops.EventLoop.AddChannel | src/event_loop.cpp:26-39 | registers, or leaves no trace |
| EventLoops.EventLoop.UpdateChannel | src/event_loop.cpp:41-49 | changes the interest of a registered channel, or nothing |
| EventLoops.EventLoop.RemoveChannel | src/event_loop.cpp:51-59 | unregisters, if registered |
| IoContexts.IoContext.RefreshInterest | src/io_context.cpp:211-234 | registers exactly the waiting directions, or fails with the channels unchanged |
| IoContexts.IoContext.Complete | src/io_context.cpp:202-209 | empties a slot and enqueues its frame |
| IoContexts.IoContext.Register | src/io_context.cpp:166-187 | slot, registration and heap entry together, or none of them |
| IoContexts.IoContext.ArmWait | src/io_context.cpp:152-188 | refuses bad and busy descriptors, arms the wait with its frame, a fresh token and its deadline, or rolls back |
| IoContexts.IoContext.OnReady | src/io_context.cpp:190-200 | completes the wait of that direction with true and keeps the registrations exact |
| IoContexts.IoContext.Cancel | src/io_context.cpp:93-106 | completes both directions with false, reader first, and unregisters; with an empty table, as during destruction, it changes nothing |
| IoContexts.IoContext.ExpireOne | src/io_context.cpp:269-281 | a due heap entry ends a wait iff that wait is still armed |
| IoContexts.IoContext.ExpireTimers | src/io_context.cpp:267-282 | completes with false exactly the armed waits that are due, by ascending deadline, and equal deadlines in any order the heap may choose |
| IoContexts.IoContext.NextPollTimeout | src/io_context.cpp:284-300 | -1 iff no timed wait is armed, 0 iff one is due, else the time to the earliest, rounded up to milliseconds and clamped |
| IoContexts.IoContext.HasRegisteredWaiter | src/io_context.cpp:302-309 | whether a descriptor is registered |
| IoRecords.RegisteredIff | src/io_context.cpp:302-309 | which is whether a wait is armed |
| IoContexts.IoContext.Poll | src/event_loop.cpp:122-153 | the callbacks of all events, in order, with the channel looked up again in between |
| IoContexts.IoContext.SpawnTask | src/io_context.cpp:37-59 | takes over the frame of a Task, refuses an empty one |
| IoContexts.IoContext.FinalSuspend | include/tinycoro/task.h:32-42 | links a finished root into the completion list, or goes back to the parent |
| IoContexts.IoContext.DrainCompleted | src/io_context.cpp:118-130 | destroys every finished root once and reports whether one had failed |
| IoContexts.IoContext.RunReady | src/io_context.cpp:138-150 | resumes exactly the frames ready at its start, in order, up to a stop or the exception of a root, and ends in the state that these resumptions lead to; it raises an exception iff a root returns with one |
| IoContexts.IoContext.Run | src/io_context.cpp:61-87 | entered again, also by a running coroutine, it refuses and changes nothing; otherwise it forgets earlier requests to stop and goes from round to round until no root is left, the last round is stopped, or a root returns with an exception in the last round, which is then raised; it is then no longer running |
| IoContexts.IoContext.RunRound | src/io_context.cpp:68-80 | a batch, expiry, poll and expiry again; it raises an exception iff a root returns with one; a task is never found without a wake source, and all frames ready at its start are resumed before epoll is asked |
| IoContexts.IoContext.AskEpoll | src/io_context.cpp:73-79 | epoll is asked not to wait while frames are ready, else to wait for the earliest deadline |
| IoContexts.IoContext.Destroy | src/io_context.cpp:17-35 | whatever the destructors of the frames cancel meanwhile, nothing is registered or waiting any more, and every frame was destroyed once |
| TcpStreams.RemainingRoundsUp | src/tcp_stream.cpp:25-36 | a wait for the time left ends at the deadline or less than a millisecond later |
| TcpStreams.EveryWakeIsScripted | src/io_context.cpp:202-209 | every end of a wait that the executor allows is among those the streams are proved for |
| TcpStreams.OperationIsScripted | src/tcp_stream.cpp:109-158 | the waits of a read or a write in any run of the executor, refused ones included, go as one of the scripts says that these are proved for: same results, same times |
| TcpStreams.FalseOnlyAfterDeadline | src/tcp_stream.cpp:124-127 | in any run, a wait for the time left ends with false only after the deadline of the whole operation, or by a cancel of its descriptor |
| TcpStreams.TcpStream.ReadSome | src/tcp_stream.cpp:102-131 | the first step that is neither interrupted nor waits successfully decides: result, bytes, descriptor and clock are exactly what that step says, for every script; bytes are taken from the socket only with Ok and land behind the contents; it throws before if the buffer cannot grow |
| TcpStreams.TcpStream.WriteAll | src/tcp_stream.cpp:133-159 | the socket was handed exactly the first `written` bytes, in order, whatever happened; the first step that neither passes nor is interrupted decides, or all bytes are written before: result, count, descriptor and clock are exactly what it says, for every script |
| TcpStreams.ReadOutcomes | src/tcp_stream.cpp:117-130 | a read answers Timeout iff the deciding step is a wait that expired, Closed iff the descriptor was closed during it, and throws iff it was refused |
| TcpStreams.WriteOutcomes | src/tcp_stream.cpp:139-158 | the same for a write; Ok iff the steps before accept all bytes, Error iff the deciding call fails |
| TcpStreams.ArmedInTime | src/tcp_stream.cpp:18-36 | a wait for the time left is armed for the deadline of the operation, or for less than a millisecond and the time spent on arming it after that |
| TcpStreams.ExpiresInTime | src/tcp_stream.cpp:117-130 | so an operation that expires does so at its deadline, or late only by that and the delay of the wake-up |
| TcpStreams.TcpStream.Close | src/tcp_stream.cpp:169-176 | both waits of the descriptor are cancelled before it is given back |
| TcpStreams.ServeEcho | examples/echo_server.cpp:21-34 | at any point of any run, the bytes sent are a prefix of the bytes received; it goes on exactly over the rounds in which bytes arrive and the socket takes them, has then received all these and the chunk after them, and all received was sent iff no write failed |

## Assumptions

- Atomic operations are sequentially consistent, and positions, tokens and clocks do not wrap.
- `epoll_ctl` succeeds in `on_ready`, `expire_timers` and in the rollback of `arm_wait`; in
  `arm_wait` itself it may fail, and so may the insertion into the timer heap.
- Tasks suspend only through the library's awaiters, and `cancel` is reached only as the model says:
  from any code, for any descriptor; for the deadline result of the streams, through `close`.
- Only one thread shuts a pool down, and not from one of its own tasks. Tasks may submit tasks and take
  errors.

## Left out

- C++ weak-memory effects and cache-line alignment: steps are sequentially consistent.
- Wraparound of 64-bit positions and tokens.
- Real epoll, sockets and clocks: their results are parameters. `epoll_wait` errors other than an interruption are not modelled.
- Allocation failure, except for the push into the timer heap; the failure path of the `ThreadPool` constructor; the error path of `spawn`, which no input reaches.
- Values and exceptions carried from an awaited Task to its parent: only whether a frame failed is modelled.
- Awaiting an empty or finished Task, and completion callbacks other than the executor's.
- `Buffer::append` with a null pointer, `retrieve_all_as_string`.
- Parser behaviour when `parse` is called again after an error without `reset`.
- `TcpServer`, `TcpConnection`, the callback examples, `TcpListener`, `set_nodelay`, signals, the benchmark and packaging: descriptor and callback plumbing that would only add easier members.
- EventLoops.EventLoop.UpdateChannel: channels go by descriptor; the test that the registered channel is the very object given is not modelled, because the executor has one channel for each descriptor.
- EventLoops.EventLoop.RemoveChannel: the same.
- IoContexts.IoContext.Run: is given finitely many rounds, so that it ends; it says how far it got. What coroutine bodies do is a parameter, and has to be something they can do in the state they meet.
- Executor: coroutine frames and Task objects are values, with handles that move between owners; aliasing of C++ objects is not modelled.
- IoContexts.IoContext.Destroy: what the destructors cancel is asked for between the roots, and the frames that are gone are recorded when all roots are.
- ServeHttp.Connection: a failed read ends the chunks and a failed write ends the connection, without saying why it failed.
