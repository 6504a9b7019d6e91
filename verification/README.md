# A verified model of the reactor servers

The repository holds an HTTP server written on its own reactor (`http-v1/source`), with the muduo network library and
the wrk load generator it was written against. This project models the parts of it where the reasoning is hard, as
Dafny values, step relations and classes, and proves what these parts promise for every input, every run or every
reachable state.

| modules | what they model | main results |
|---|---|---|
| `DancingLinks`, `MatrixBuild`, `SudokuRules`, `SudokuEncoding`, `Sudoku` | the dancing-links Sudoku solver, in place on its node array | `Sudoku.SolveBoard`, `Sudoku.SudokuSolver.Solve`, `Sudoku.SudokuSolver.Uncover` |
| `EventLoop` | the wakeup protocol of muduo's loop, as a step relation over all threads | `EventLoop.NoLostWakeups` |
| `ConnectionPhase`, `TcpServer` | the life of a connection across loops, as a step relation | `TcpServer.LifeInOrder`, `TcpServer.DrainedIsComplete` |
| `TcpConnection` | the output side of a connection, with calls from other threads | `TcpConnection.BytesConserved`, `TcpConnection.StoreIsSafeIff` |
| `TimerWheel` | the HTTP server's timing wheel with shared and weak references, and callbacks that call it while a slot is cleared | `TimerWheel.RunRefinesPlan`, `TimerWheel.CountsDown`, `TimerWheel.FiresUnlessCancelled` |
| `TimerQueue` | muduo's timer queue with callbacks that add and cancel timers | `TimerQueue.EveryRun`, `TimerQueue.CancelledNeverRuns`, `TimerQueue.CancelledAnywhere`, `TimerQueue.AddedRuns`, `TimerQueue.RepeatsOnSchedule` |
| `ByteStrings`, `UrlCodec`, `ByteBuffer` | percent coding, splitting, the growing buffer | `UrlCodec.RoundTrip`, `UrlCodec.DecodesStrictlyIff`, `ByteBuffer.Buffer.Write` |
| `HttpParser`, `HttpFormat`, `HttpDriver`, `HttpStream`, `HttpServer` | the incremental HTTP parser and its re-entrant driver | `HttpParser.AnyFragmentation`, `HttpFormat.RequestRoundTrip`, `HttpStream.StaysIffAsked`, `HttpStream.KeptStream` |
| `AsyncLogging` | the double-buffered logger, as a step relation and as an object | `AsyncLogging.EveryRun` |
| `Calendar`, `TimeZones` | Julian days, broken-down time, transitions of a time zone | `Calendar.RoundTripsIffInEra`, `Calendar.SecondsIffInEra`, `TimeZones.RoundTrip`, `TimeZones.SkippedTime` |
| `ChunkedBody` | the chunked-body states of http_parser | `ChunkedBody.HttpParser.DeliverBody`, `ChunkedBody.CompletesIffWellFormed` |
| `SudokuStat` | the sliding window of the Sudoku server's statistics | `SudokuStat.WindowIsExact`, `SudokuStat.WindowSpans` |

State that the source updates in place is a class here; each of its methods is proved equal to a function on the
abstract state, and the lemmas are about that function. What the kernel, the clock, the peer, a request handler or a
callback decides is a parameter: every result of a write, every interleaving, every sequence of calls a timer callback
makes.

## Where the code does less than one would expect

For each, a lemma says exactly when the code meets the property; most have an input or a run that shows the failure
as well.

- A functor queued by the loop's own thread before `loop()` is not announced to the first poll
  (`EventLoop.EarlyFunctorWaits`, `EventLoop.NoLostWakeups`).
- `shutdown` and `forceClose` test and store the connection state without synchronisation. A close in between makes
  the connection go down twice (`TcpServer.RacingForceCloseFails`, `TcpServer.StoreIsSafeIffOpen`), and leaves
  buffered bytes without write interest in a state that says it is still closing
  (`TcpConnection.RacingStoreStrands`, `TcpConnection.StoreIsSafeIff`). What the kernel was given and what is
  buffered still are everything accepted, in order (`TcpConnection.BytesConserved`).
- An event set with HUP, without IN and with PRI or RDHUP closes a connection twice (`TcpServer.DoubleCloseFails`,
  `TcpServer.DispatchedClosesOnce`).
- Reading started after the close, or stopped after `connectDestroyed`, fails an assert
  (`TcpServer.LateStartReadFails`, `TcpServer.StartReadIsSafeIffOpen`, `TcpServer.LateStopReadFails`,
  `TcpServer.StopReadIsSafeIffAdded`).
- The server's destructor runs `connectDestroyed` on open connections; after a `shutdown` that has not ended, the user
  is not told and an assert fails (`TcpServer.DestroyedWhileOpen`).
- A shutdown queued by another thread and run after the close shuts the write side on buffered bytes
  (`TcpConnection.LateShutdownCuts`, `TcpConnection.CutIffClosed`).
- The timing wheel keeps a timeout only between 1 and 60, and its index only for fresh ids (`TimerWheel.DelayIsTimeout`,
  `TimerWheel.FreshIdNeeded`).
- A timer callback that adds or refreshes a timer with a timeout of 60 puts its reference into the slot that is being
  cleared (`TimerWheel.RefreshInRunFails`, `TimerWheel.CallIsSafeIff`, `TimerWheel.RoomyIff`). The C++ library leaves
  undefined what then becomes of the reference; the model drops it with the others of the slot.
- A log line of 4,000,000 bytes or more is lost (`AsyncLogging.LongLineLost`, `AsyncLogging.LoggedIffShort`).
- Dates before 1 March of the year -4800, the last of which shares its number with that day, and times before it do
  not survive their conversions (`Calendar.BeforeEraCollides`, `Calendar.RoundTripsIffInEra`,
  `Calendar.NumberIffInEra`, `Calendar.SecondsIffInEra`, `Calendar.FieldsIffInEra`).
- A local time that comes again at the first or the last transition of a zone cannot be converted back to its first
  occurrence (`TimeZones.FirstRepeatLost`, `TimeZones.RoundTrip`). At the first transition this is because the code
  compares with the prior second of the second one.
- `HexToDecimal` accepts every letter, so the decoder turns `%zz` into a byte (`UrlCodec.AnyLetterDecodes`,
  `UrlCodec.DecodesStrictlyIff`); the model follows the code.

## Model

| member | source | states |
|---|---|---|
| `DancingLinks.RelinkUndoesUnlink` | muduo_source_code/examples/sudoku/sudoku.cc:222-238 | putting a node back into its column restores every link and the column size that taking it out changed |
| `DancingLinks.HookUndoesUnhook` | muduo_source_code/examples/sudoku/sudoku.cc:218-242 | hanging a header back into the header ring restores every link that taking it out changed |
| `DancingLinks.RowOutUndone` | muduo_source_code/examples/sudoku/sudoku.cc:223-238 | the nodes of a row, put back in reverse order, undo step by step what taking them out did |
| `DancingLinks.CoverKeeps` | muduo_source_code/examples/sudoku/sudoku.cc:218-229 | covering an uncovered column of a well-formed structure leaves one that is well-formed for the remaining columns: column rings in order, header ring, sizes equal to member counts, the covered column's own links untouched |
| `DancingLinks.CoverSplit` | muduo_source_code/examples/sudoku/sudoku.cc:118-123 | taking one choice out of an exact cover leaves an exact cover of the columns that choice does not meet |
| `DancingLinks.CoverJoin` | muduo_source_code/examples/sudoku/sudoku.cc:118-123 | adding an available choice to an exact cover of the covered columns gives an exact cover of these and the columns of the choice |
| `DancingLinks.PrunedAtNext` | muduo_source_code/examples/sudoku/sudoku.cc:118-130 | once the search below a row has failed, no exact cover uses any row of the column walked so far |
| `DancingLinks.PrunedOut` | muduo_source_code/examples/sudoku/sudoku.cc:118-132 | a column all of whose rows have failed leaves no exact cover at all |
| `MatrixBuild.WithColumnKeeps` | muduo_source_code/examples/sudoku/sudoku.cc:144-165 | appending a column keeps the structure well-formed and adds exactly that header |
| `MatrixBuild.WithChoiceKeeps` | muduo_source_code/examples/sudoku/sudoku.cc:82-88 | adding the four nodes of a digit in a cell keeps the structure well-formed for one choice more |
| `SudokuRules.OntoIsInjective` | muduo_source_code/examples/sudoku/sudoku.cc:63-72 | nine cells that hold all nine digits hold no digit twice |
| `SudokuRules.CoverCompletes` | muduo_source_code/examples/sudoku/sudoku.cc:57-113 | a board filled from an exact cover of the columns built for the clues is a completion of the clues |
| `SudokuRules.CompletionCovers` | muduo_source_code/examples/sudoku/sudoku.cc:57-92 | every completion of the clues is an exact cover of these columns, so contradictory clues have none |
| `SudokuEncoding.BuiltEncodes` | muduo_source_code/examples/sudoku/sudoku.cc:57-92 | the columns and rows the constructor's loops leave are exactly those of the empty cells, the missing digits of each unit and the candidates |
| `Sudoku.SudokuSolver.constructor` | muduo_source_code/examples/sudoku/sudoku.cc:33-93 | the solver stands at the start of the search over the structure that encodes the clues; the board is unchanged |
| `Sudoku.SudokuSolver.Build` | muduo_source_code/examples/sudoku/sudoku.cc:43-92 | the constructor's loops build the structure that encodes the clues within the fixed node array |
| `Sudoku.SudokuSolver.MarkUsed` | muduo_source_code/examples/sudoku/sudoku.cc:43-55 | the three flag tables say which digit is used in which row, column and box |
| `Sudoku.SudokuSolver.AppendCells` | muduo_source_code/examples/sudoku/sudoku.cc:57-61 | one column for each empty cell, and no other |
| `Sudoku.SudokuSolver.AppendKeys` | muduo_source_code/examples/sudoku/sudoku.cc:63-72 | one column for each digit missing from a row, column or box, and no other |
| `Sudoku.SudokuSolver.AppendColumn` | muduo_source_code/examples/sudoku/sudoku.cc:158-165 | the new header hangs left of the root, is entered in the column table under its name, and the structure stays well-formed |
| `Sudoku.SudokuSolver.NewRow` | muduo_source_code/examples/sudoku/sudoku.cc:167-184 | the new node hangs at the bottom of the column of that name |
| `Sudoku.SudokuSolver.PutLeft` | muduo_source_code/examples/sudoku/sudoku.cc:244-250 | the node array after the four stores equals the specified one |
| `Sudoku.SudokuSolver.PutUp` | muduo_source_code/examples/sudoku/sudoku.cc:252-260 | the node array after the six stores equals the specified one |
| `Sudoku.SudokuSolver.AddChoice` | muduo_source_code/examples/sudoku/sudoku.cc:82-88 | the four nodes of a digit in a cell are hung into their columns and tied into a ring, adding exactly that choice |
| `Sudoku.SudokuSolver.IsCandidate` | muduo_source_code/examples/sudoku/sudoku.cc:75-81 | the flag test holds exactly when the digit is missing from the row, the column and the box of the empty cell |
| `Sudoku.SudokuSolver.AddChoices` | muduo_source_code/examples/sudoku/sudoku.cc:74-92 | exactly the candidates of the empty cells become choices |
| `Sudoku.SudokuSolver.Cover` | muduo_source_code/examples/sudoku/sudoku.cc:218-229 | the in-place loops compute the covered structure, which is well-formed without that column |
| `Sudoku.SudokuSolver.Uncover` | muduo_source_code/examples/sudoku/sudoku.cc:231-242 | after cover of a column, uncover of it restores the whole node array |
| `Sudoku.SudokuSolver.CoverOthers` | muduo_source_code/examples/sudoku/sudoku.cc:120-122 | covers the columns of the other nodes of a row, in ring order |
| `Sudoku.SudokuSolver.UncoverOthers` | muduo_source_code/examples/sudoku/sudoku.cc:127-129 | restores the node array from before these columns were covered |
| `Sudoku.SudokuSolver.GetMinColumn` | muduo_source_code/examples/sudoku/sudoku.cc:201-216 | an uncovered column of size at most one, or else one of least size |
| `Sudoku.SudokuSolver.ReadChoice` | muduo_source_code/examples/sudoku/sudoku.cc:100-108 | the walk to the right finds the cell and the digit of the row's choice, and ends |
| `Sudoku.SudokuSolver.WriteBoard` | muduo_source_code/examples/sudoku/sudoku.cc:97-113 | exactly the cells of the choices on the stack are written, each with its digit |
| `Sudoku.SudokuSolver.TryRow` | muduo_source_code/examples/sudoku/sudoku.cc:118-130 | one round of the loop: a solution, or everything as before and no cover below this row |
| `Sudoku.SudokuSolver.SearchBelow` | muduo_source_code/examples/sudoku/sudoku.cc:119-125 | a solution, or the position after the choice of the row with board as before and no exact cover of the columns left |
| `Sudoku.SudokuSolver.Solve` | muduo_source_code/examples/sudoku/sudoku.cc:95-133 | true with a board written from an exact cover of all columns, or false with node array, stack and board exactly as found and no exact cover of the uncovered columns; ends, by their number |
| `Sudoku.SolveBoard` | muduo_source_code/examples/sudoku/sudoku.cc:277-289 | true exactly when the clues have a completion; the board then is one that agrees with every clue, and is unchanged otherwise |
| `Sudoku.Encode` | muduo_source_code/examples/sudoku/sudoku.cc:282-287 | the text of a board reads back as that board |
| `Sudoku.SolveSudoku` | muduo_source_code/examples/sudoku/sudoku.cc:263-291 | a completion of the puzzle, or the fixed text exactly when a character is not a digit or there is no completion |
| `EventLoop.StepKeeps` | muduo_source_code/muduo/net/EventLoop.cc:107-171 | every action of every thread keeps the wakeup invariant and the order of functors |
| `EventLoop.NoLostWakeups` | muduo_source_code/muduo/net/EventLoop.cc:148-171 | in every interleaving, after poll has first returned the loop never blocks on pending functors without a positive eventfd or a producer about to write it; at the first poll it does so exactly when the loop's own thread queued functors before loop() and no other thread has called in |
| `EventLoop.EarlyFunctorWaits` | muduo_source_code/muduo/net/EventLoop.cc:160-171 | a functor queued by the owner thread before loop() is left behind a blocking poll |
| `EventLoop.RunInOrder` | muduo_source_code/muduo/net/EventLoop.cc:254-269 | each functor runs at most once and in queue order, and all have run when the loop blocks with nothing pending |
| `EventLoop.OneAtATime` | muduo_source_code/muduo/net/EventLoop.cc:254-269 | in every run as many functors have run as there were steps that run one, so that anything may come between two of them |
| `EventLoop.ReportedOnlyIfWritten` | muduo_source_code/muduo/net/EventLoop.cc:234-252 | with the eventfd read, poll does not report it in any run in which nobody writes it |
| `EventLoop.ReadIsQuiet` | muduo_source_code/muduo/net/EventLoop.cc:244-252 | one read is enough for that, however many wakeups came before |
| `TcpServer.DispatchedClosesOnce` | muduo_source_code/muduo/net/Channel.cc:89-123 | one reported event set closes the connection at most once exactly when it is not HUP without IN together with PRI or RDHUP |
| `TcpServer.DispatchedIff` | muduo_source_code/muduo/net/Channel.cc:89-123 | which callbacks each reported event set leads to, each once, in the order close, error, read, write |
| `TcpServer.WriteInterestEnds` | muduo_source_code/muduo/net/TcpConnection.cc:368-388 | handleWrite turns write interest off exactly when it has emptied the buffer, and changes nothing else of the life cycle |
| `TcpServer.DestroyedWhileOpen` | muduo_source_code/muduo/net/TcpConnection.cc:334-345 | connectDestroyed on an open connection, as the server's destructor runs it, tells the user exactly if shutdown has not been called, and fails the assert of the channel's removal exactly if it has and the channel still has an interest |
| `TcpServer.EstablishKeeps` | muduo_source_code/muduo/net/TcpConnection.cc:323-332 | connectEstablished keeps the life-cycle invariant |
| `TcpServer.CloseKeeps` | muduo_source_code/muduo/net/TcpConnection.cc:408-421 | handleClose with the server's close callback keeps it, in the server's own loop and in another |
| `TcpServer.RemoveKeeps` | muduo_source_code/muduo/net/TcpServer.cc:106-117 | removeConnectionInLoop erases the one listed entry and queues the one destruction |
| `TcpServer.DestroyKeeps` | muduo_source_code/muduo/net/TcpConnection.cc:334-345 | connectDestroyed runs on a channel without interest and takes it from the poller |
| `TcpServer.NewConnectionKeeps` | muduo_source_code/muduo/net/TcpServer.cc:71-98 | a new connection is listed and brought up in its loop, or queued to be |
| `TcpServer.PollKeeps` | muduo_source_code/muduo/net/Channel.cc:68-123 | the callbacks dispatched for a set of reported events can each be run |
| `TcpServer.StepKeeps` | muduo_source_code/muduo/net/TcpServer.cc:71-117 | every action of every loop and every other thread keeps the life-cycle invariant |
| `TcpServer.LifeInOrder` | muduo_source_code/muduo/net/TcpServer.cc:71-117 | in every race-free interleaving each connection goes through UP, DOWN, erasure and connectDestroyed at most once and in this order, no assert fails, the map holds exactly the connections not yet erased, and after DOWN no event is enabled |
| `TcpServer.DrainedIsComplete` | muduo_source_code/muduo/net/TcpServer.cc:100-117 | with all functor queues empty every connection is up, or has been taken down, erased and destroyed |
| `TcpServer.StoreIsSafeIffOpen` | muduo_source_code/muduo/net/TcpConnection.cc:239-247 | the unsynchronised store to the state in shutdown and forceClose keeps the invariant exactly when the connection has not been closed since the test |
| `TcpServer.RacingForceCloseFails` | muduo_source_code/muduo/net/TcpConnection.cc:239-269 | a run in which forceClose races with the peer's close and a connection goes down twice |
| `TcpServer.DoubleCloseFails` | muduo_source_code/muduo/net/Channel.cc:94-116 | the excluded event set closes an open connection a second time |
| `TcpServer.StartReadIsSafeIffOpen` | muduo_source_code/muduo/net/TcpConnection.cc:299-310 | a startReadInLoop that passes its test keeps the life-cycle invariant exactly when the connection is open |
| `TcpServer.LateStartReadFails` | muduo_source_code/muduo/net/Channel.cc:60-66 | reading re-enabled after the close and before connectDestroyed makes the channel's removal fail its assert |
| `TcpServer.StopReadIsSafeIffAdded` | muduo_source_code/muduo/net/TcpConnection.cc:312-321 | a stopReadInLoop that passes its test keeps the invariant exactly when the channel has been added to the poller and not removed |
| `TcpServer.LateStopReadFails` | muduo_source_code/muduo/net/Channel.cc:54-58 | a stopReadInLoop that passes its test after connectDestroyed marks the channel as added again, so that its destructor's assert fails |
| `TcpServer.CallQueueKeeps` | muduo_source_code/muduo/net/TcpConnection.cc:239-247 | queueing the functor of forceClose, a step of its own after the store, keeps the invariant |
| `TcpConnection.StepSound` | muduo_source_code/muduo/net/TcpConnection.cc:139-213 | every step of every thread, racing stores included, keeps: kernel bytes then buffered bytes are the accepted bytes, and until handleClose has run write interest is on exactly when bytes are buffered |
| `TcpConnection.StepKeeps` | muduo_source_code/muduo/net/TcpConnection.cc:139-213 | every step but a store to the state of a connection closed with bytes buffered keeps also that the state tells whether it is closed |
| `TcpConnection.StoreIsSafeIff` | muduo_source_code/muduo/net/TcpConnection.cc:194-203 | the store in shutdown or forceClose of another thread keeps it exactly when the connection has not been closed with bytes buffered |
| `TcpConnection.BytesConserved` | muduo_source_code/muduo/net/TcpConnection.cc:139-192 | over every run with any partial writes and any racing stores, what the kernel took in all writes, a prefix of the message for a direct write and of the output buffer for a later one, followed by the output buffer is the accepted messages in order; until the close write interest is on exactly when the buffer is not empty and the write side is never shut on buffered bytes |
| `TcpConnection.StepTakes` | muduo_source_code/muduo/net/TcpConnection.cc:151-406 | every step gives the kernel exactly the bytes its write took, and no step takes one back |
| `TcpConnection.CloseIsFinal` | muduo_source_code/muduo/net/TcpConnection.cc:408-421 | once closed, no byte is accepted or given to the kernel and the write side is not shut any more, in every run without a racing store |
| `TcpConnection.CloseCloses` | muduo_source_code/muduo/net/TcpConnection.cc:408-421 | handleClose of a connection that is up closes it, moving no byte |
| `TcpConnection.ForceCloseCloses` | muduo_source_code/muduo/net/TcpConnection.cc:239-269 | in every run, once the functor of a forceClose has run the connection is closed, no byte added, moved or dropped |
| `TcpConnection.ShutdownOnlyIfUp` | muduo_source_code/muduo/net/TcpConnection.cc:194-203 | shutdown does something exactly to a connection that is up |
| `TcpConnection.InterestFollowsState` | muduo_source_code/muduo/net/TcpConnection.cc:139-213 | over every run without a racing store the same holds whenever the state is not kDisconnected |
| `TcpConnection.RacingStoreStrands` | muduo_source_code/muduo/net/TcpConnection.cc:194-203 | a run with a racing store that leaves kDisconnecting, a buffered byte and no write interest |
| `TcpConnection.ShutdownWaitsForOutput` | muduo_source_code/muduo/net/TcpConnection.cc:194-213 | shutdown in the loop moves no byte, and shuts the write side at once exactly when nothing is buffered |
| `TcpConnection.DrainedShutsDown` | muduo_source_code/muduo/net/TcpConnection.cc:368-406 | when a disconnecting connection drains, the kernel has everything accepted and the write side is shut |
| `TcpConnection.OrderlyHalfClose` | muduo_source_code/muduo/net/TcpConnection.cc:194-213 | over every run with any partial writes, sends in between and calls of other threads: a disconnecting stream whose output has drained has given the kernel every accepted byte and cut none off, and its write side is shut unless another thread's call is still underway |
| `TcpConnection.CutIffClosed` | muduo_source_code/muduo/net/TcpConnection.cc:205-213 | shutdownInLoop shuts the write side on buffered bytes exactly when the connection was closed, with bytes buffered and write interest off; without races the state alone tells |
| `TcpConnection.LateShutdownCuts` | muduo_source_code/muduo/net/TcpConnection.cc:194-213 | a run in which a shutdown tested, stored and queued by another thread is run after the close and cuts a buffered byte off |
| `TcpConnection.Connection.SendInLoop` | muduo_source_code/muduo/net/TcpConnection.cc:139-192 | the method acts as the step function and keeps both invariants, in every state a race can leave too, for every result of the direct write |
| `TcpConnection.Connection.HandleWrite` | muduo_source_code/muduo/net/TcpConnection.cc:368-406 | the method acts as the step function, which `TcpConnection.StepTakes` ties to what the kernel took, and keeps both invariants, in every state a race can leave too, for every result of the write |
| `TcpConnection.Connection.Shutdown` | muduo_source_code/muduo/net/TcpConnection.cc:194-203 | the method acts as the step function and keeps both invariants, in every state a race can leave too |
| `TcpConnection.Connection.ShutdownInLoop` | muduo_source_code/muduo/net/TcpConnection.cc:205-213 | the method acts as the step function and keeps both invariants, in every state a race can leave too |
| `TcpConnection.Connection.HandleClose` | muduo_source_code/muduo/net/TcpConnection.cc:408-421 | the method acts as the step function and keeps both invariants, in every state a race can leave too |
| `TcpConnection.Connection.ConnectEstablished` | muduo_source_code/muduo/net/TcpConnection.cc:323-332 | the method acts as the step function and keeps both invariants, in every state a race can leave too |
| `TimerWheel.DelayIsTimeout` | http-v1/source/server.hpp:944-957 | the slot arithmetic keeps a timeout exactly when it lies between 1 and 60 |
| `TimerWheel.StepKeeps` | http-v1/source/server.hpp:861-1035 | every call, from outside or by a callback, and every step of a Run (a dropped reference, the return of a callback, the end of the clear) keeps the wheel in order: a live task's last reference is in the slot of its deadline, and the index holds exactly the live tasks and the one whose callback is running |
| `TimerWheel.AddRefines` | http-v1/source/server.hpp:944-957 | adding under an id without a timer is adding it to a plain map from id to deadline |
| `TimerWheel.RefreshRefines` | http-v1/source/server.hpp:964-977 | a refresh moves the deadline of the id in the plain map, whatever older references remain in the slots |
| `TimerWheel.CancelRefines` | http-v1/source/server.hpp:985-994 | a cancellation marks the id in the plain map |
| `TimerWheel.EndRefines` | http-v1/source/server.hpp:861-870 | a task that loses its last reference is due at this very tick; it leaves the plain map, its callback being called exactly if it was not cancelled |
| `TimerWheel.RunRefines` | http-v1/source/server.hpp:1016-1035 | a Run, whatever allowed calls its callbacks make, keeps the wheel in order, leaves nothing due, and is the plain map after one tick and the calls and ends of the Run, each timer ending at its deadline only |
| `TimerWheel.RunSpec` | http-v1/source/server.hpp:1016-1022 | in a Run, a timer that no callback names ends exactly when it is due, with its callback exactly when it is not cancelled, and is left as it is otherwise |
| `TimerWheel.RunRefinesPlan` | http-v1/source/server.hpp:861-1035 | over every run, callbacks that add, refresh and cancel included, what is seen of the wheel is a run of the plain map, and HasTimer is true exactly for its ids and the one whose callback is running |
| `TimerWheel.CountsDown` | http-v1/source/server.hpp:861-1035 | in every run a timer ends only when its countdown, set anew by each add and refresh of anyone, reaches zero; its callback is called exactly if nobody cancelled it since it was added; no countdown is left at zero when a Run returns |
| `TimerWheel.FiresUnlessCancelled` | http-v1/source/server.hpp:861-870 | a timer that nobody adds or refreshes again exists exactly until the Run in which it is due; in that Run its callback is called, once, if and only if nobody, no callback that runs before it either, has cancelled it |
| `TimerWheel.DeadForGood` | http-v1/source/server.hpp:861-870 | a task that is gone never comes back and its callback is never called again |
| `TimerWheel.DeadlineSet` | http-v1/source/server.hpp:944-977 | the deadline is timeout ticks after the add or the refresh, for timeouts 1 to 60 |
| `TimerWheel.CallIsSafeIff` | http-v1/source/server.hpp:944-994 | a call keeps the wheel in order exactly when the id of an add has no timer and no reference goes to the slot that is being cleared |
| `TimerWheel.RoomyIff` | http-v1/source/server.hpp:974-976 | in a Run a reference goes to another slot than the one being cleared exactly when the timeout is no multiple of 60 |
| `TimerWheel.RefreshInRunFails` | http-v1/source/server.hpp:964-1022 | a run in which a callback refreshes a timer of timeout 60 that is due in the same Run; its callback is called in that Run, sixty Runs before the deadline the refresh set |
| `TimerWheel.OwnCallsDoNothing` | http-v1/source/server.hpp:861-870 | while its callback runs, a timer is still found by HasTimer, and its own refresh and cancel, as ReleaseInLoop makes it, do nothing |
| `TimerWheel.FreshIdNeeded` | http-v1/source/server.hpp:953-956 | adding keeps the index equal to the live tasks exactly when the id has no timer |
| `TimerWheel.RunPlayed` | http-v1/source/server.hpp:1016-1022 | a Run with its callbacks' calls is a run of the single steps |
| `TimerWheel.Timers.Add` | http-v1/source/server.hpp:944-957 | the method acts as the specified operation, and keeps the wheel in order when the call is allowed |
| `TimerWheel.Timers.Refresh` | http-v1/source/server.hpp:964-977 | the method acts as the specified operation, and keeps the wheel in order when the call is allowed |
| `TimerWheel.Timers.Cancel` | http-v1/source/server.hpp:985-994 | the method acts as the specified operation, and keeps the wheel in order |
| `TimerWheel.Timers.Has` | http-v1/source/server.hpp:1002-1008 | true exactly for the ids of the plain map and the one whose callback is running |
| `TimerWheel.Timers.RunOnce` | http-v1/source/server.hpp:1016-1022 | moving on and dropping the references of the slot one by one, with the calls each callback makes, is the specified Run, and keeps the wheel in order when these are allowed |
| `TimerWheel.Timers.Release` | http-v1/source/server.hpp:861-870 | one reference goes; if a callback is called, its calls run before the index entry goes |
| `TimerWheel.Timers.DropReference` | http-v1/source/server.hpp:861-870 | with the last reference the task goes; if it was cancelled its index entry goes too, otherwise the callback is due, the task being dead and the entry still there |
| `TimerQueue.InsertSorted` | muduo_source_code/muduo/net/TimerQueue.cc:246-250 | insertion into the ordered set keeps it sorted and adds exactly that entry |
| `TimerQueue.EraseSorted` | muduo_source_code/muduo/net/TimerQueue.cc:151-152 | erasure keeps it sorted and removes exactly that entry |
| `TimerQueue.ExpiredSplit` | muduo_source_code/muduo/net/TimerQueue.cc:187-191 | the entries before the lower bound are exactly those due |
| `TimerQueue.DoKeeps` | muduo_source_code/muduo/net/TimerQueue.cc:132-161 | adding or cancelling, inside a callback or not, keeps: both sets and the heap hold the same live timers under their current expirations, and every timer ever made is alive or deleted, once |
| `TimerQueue.ExpireKeeps` | muduo_source_code/muduo/net/TimerQueue.cc:183-202 | exactly the due timers move to the batch, and the invariant is kept |
| `TimerQueue.RunBatchRuns` | muduo_source_code/muduo/net/TimerQueue.cc:171-178 | a batch runs each of its timers exactly once and in order, whatever its callbacks add or cancel, and its timers survive until reset |
| `TimerQueue.ResetAllFate` | muduo_source_code/muduo/net/TimerQueue.cc:208-222 | reset puts a timer of the batch back at now plus its interval exactly when it repeats and was not cancelled meanwhile, and deletes it otherwise |
| `TimerQueue.ResetAllOther` | muduo_source_code/muduo/net/TimerQueue.cc:208-222 | reset leaves every queued timer as it is |
| `TimerQueue.HandleReadKeeps` | muduo_source_code/muduo/net/TimerQueue.cc:163-181 | one expiry of the timerfd keeps the invariant, whatever the callbacks do |
| `TimerQueue.CancelledNeverRuns` | muduo_source_code/muduo/net/TimerQueue.cc:143-161 | a timer cancelled between two expiries while queued is deleted and its callback never runs again in any later run |
| `TimerQueue.CancelledByCallback` | muduo_source_code/muduo/net/TimerQueue.cc:143-181 | a queued timer that is not yet due, cancelled by a callback of another timer's batch, is deleted when the batch ends and does not run in it |
| `TimerQueue.CancelledByCallbackEnds` | muduo_source_code/muduo/net/TimerQueue.cc:143-222 | and never runs again in any later run |
| `TimerQueue.CancelledAnywhere` | muduo_source_code/muduo/net/TimerQueue.cc:143-222 | the same from the moment of the cancellation inside a callback, whatever that callback, the rest of the batch and every later run do |
| `TimerQueue.CancelledInBatch` | muduo_source_code/muduo/net/TimerQueue.cc:156-222 | a timer cancelled by any callback of the batch that holds it, its own included, runs once in that batch and is deleted at its end |
| `TimerQueue.CancelledInBatchEnds` | muduo_source_code/muduo/net/TimerQueue.cc:156-222 | and never runs again in any later run |
| `TimerQueue.DeadInBatch` | muduo_source_code/muduo/net/TimerQueue.cc:163-222 | wherever a batch stands, a deleted timer is not run in the rest of it nor by its reset |
| `TimerQueue.DeadForGood` | muduo_source_code/muduo/net/TimerQueue.cc:143-233 | a deleted timer never runs again |
| `TimerQueue.StaleIdCancelsNothing` | muduo_source_code/muduo/net/TimerQueue.cc:143-161 | an id whose timer has been deleted cancels nothing, even if the address is in use again; outside a batch it leaves no trace |
| `TimerQueue.DueTimer` | muduo_source_code/muduo/net/TimerQueue.cc:163-233 | a queued timer that is due and that no callback of the batch cancels runs exactly once in it; afterwards it waits for now plus its interval if it repeats, and is deleted if not |
| `TimerQueue.WaitingTimer` | muduo_source_code/muduo/net/TimerQueue.cc:163-233 | a queued timer that is not due and that no callback of the batch cancels does not run in it and waits on as it was |
| `TimerQueue.AddedAsAsked` | muduo_source_code/muduo/net/TimerQueue.cc:116-141 | an added timer waits with the expiration, interval and repetition asked for, under a sequence number no timer had before |
| `TimerQueue.AddedRuns` | muduo_source_code/muduo/net/TimerQueue.cc:116-233 | through any run in which nobody cancels it, an added timer runs at the first expiry at or after the time it was added for, once, and then waits for now plus its interval if it was to repeat, and is deleted if not |
| `TimerQueue.AddedWaits` | muduo_source_code/muduo/net/TimerQueue.cc:116-233 | through any run of earlier expiries in which nobody cancels it, an added timer waits as it was asked for and does not run |
| `TimerQueue.RepeatsOnSchedule` | muduo_source_code/muduo/net/TimerQueue.cc:116-233 | in every run in which nobody cancels it, a repeating timer runs at exactly those expiries that are not earlier than its time, its next time being each time the expiry plus its interval |
| `TimerQueue.SizesAgree` | muduo_source_code/muduo/net/TimerQueue.cc:235-259 | the two sets have the same size |
| `TimerQueue.RunKeeps` | muduo_source_code/muduo/net/TimerQueue.cc:132-233 | in every run, between handlers a non-empty queue has the timerfd expired, or armed no later than its earliest timer or 100 microseconds after arming, and never for sooner than that |
| `TimerQueue.EveryRun` | muduo_source_code/muduo/net/TimerQueue.cc:132-259 | every run of a new queue keeps all this, and every timer ever made is alive or has been deleted exactly once |
| `TimerQueue.Timers.ResetTimerfd` | muduo_source_code/muduo/net/TimerQueue.cc:41-81 | arms the timerfd for the expiration, but not sooner than 100 microseconds from now |
| `TimerQueue.Timers.Insert` | muduo_source_code/muduo/net/TimerQueue.cc:235-259 | inserts into both sets and tells whether the earliest expiration changed |
| `TimerQueue.Timers.AddTimerInLoop` | muduo_source_code/muduo/net/TimerQueue.cc:132-141 | inserts the timer and re-arms the timerfd exactly when the earliest expiration changed |
| `TimerQueue.Timers.Add` | muduo_source_code/muduo/net/TimerQueue.cc:116-124 | the method is the specified operation, whose timer `TimerQueue.AddedRuns` and `TimerQueue.AddedWaits` show to run as asked; both insertions are new, and the id names the new timer |
| `TimerQueue.Timers.CancelInLoop` | muduo_source_code/muduo/net/TimerQueue.cc:143-161 | the method is the specified operation; one entry is erased and the sizes stay equal |
| `TimerQueue.Timers.GetExpired` | muduo_source_code/muduo/net/TimerQueue.cc:183-202 | the loop removes exactly the due timers from both sets |
| `TimerQueue.Timers.Reset` | muduo_source_code/muduo/net/TimerQueue.cc:204-233 | the loop settles the batch and arms the timerfd |
| `TimerQueue.Timers.HandleRead` | muduo_source_code/muduo/net/TimerQueue.cc:163-181 | the method is the specified expiry and keeps the invariant |
| `UrlCodec.RoundTrip` | http-v1/source/http/http.hpp:98-162 | decoding undoes encoding for every byte string and both ways of writing a space |
| `UrlCodec.EncodedAlone` | http-v1/source/http/http.hpp:98-120 | exactly letters, digits and the four marks stand for themselves, exactly a space becomes '+' and only where asked, and everything else takes three bytes |
| `UrlCodec.EncodeAlphabet` | http-v1/source/http/http.hpp:98-120 | the encoder puts out unreserved characters, percent triplets in upper-case hexadecimal, and '+' only for a space |
| `UrlCodec.EncodeInvertsDecode` | http-v1/source/http/http.hpp:98-162 | encoding a decoded percent-coded text gives it back exactly when no triplet stands for a character with a shorter form |
| `UrlCodec.DecodesStrictlyIff` | http-v1/source/http/http.hpp:122-162 | for every byte string the decoder agrees with one that accepts hexadecimal digits only exactly when every '%' followed by two letters or digits is followed by two hexadecimal digits |
| `UrlCodec.AnyLetterDecodes` | http-v1/source/http/http.hpp:122-134 | letters that are not hexadecimal digits are decoded as well, unlike by that decoder |
| `UrlCodec.UrlEncode` | http-v1/source/http/http.hpp:98-120 | the loop computes the encoding |
| `UrlCodec.UrlDecode` | http-v1/source/http/http.hpp:136-162 | the loop computes the decoding, with its truncation to eight bits and its tolerance of malformed escapes |
| `UrlCodec.FindFirst` | http-v1/source/http/http.hpp:25-26 | the first place where the separator stands |
| `UrlCodec.Split` | http-v1/source/http/http.hpp:17-44 | the loop computes the pieces |
| `UrlCodec.SplitUndoesJoin` | http-v1/source/http/http.hpp:17-44 | splitting at a one-byte separator undoes joining non-empty pieces that do not hold it |
| `UrlCodec.SplitConcat` | http-v1/source/http/http.hpp:17-44 | splitting a text cut at any separator gives the pieces before the cut, then those after it, so empty pieces vanish wherever they are |
| `UrlCodec.SplitWhole` | http-v1/source/http/http.hpp:17-44 | a text without the separator is its only piece, and the empty text has none |
| `UrlCodec.PiecesPlain` | http-v1/source/http/http.hpp:17-44 | every piece is non-empty and free of the separator |
| `ByteBuffer.LineLength` | http-v1/source/server.hpp:152-165 | the length of the first line, ending in its only line feed, or 0 exactly when there is none |
| `ByteBuffer.Buffer.constructor` | http-v1/source/server.hpp:58-62 | an empty byte queue |
| `ByteBuffer.Buffer.MoveReadOffset` | http-v1/source/server.hpp:83-87 | drops bytes from the front |
| `ByteBuffer.Buffer.ReadAsString` | http-v1/source/server.hpp:106-113 | takes bytes from the front |
| `ByteBuffer.Buffer.Write` | http-v1/source/server.hpp:116-127 | appends at the back, through compaction or growth of the storage |
| `ByteBuffer.Buffer.GetLine` | http-v1/source/server.hpp:159-165 | takes the first line, or nothing when none is complete |
| `ByteBuffer.Buffer.Clear` | http-v1/source/server.hpp:168-172 | empties the queue |
| `ByteBuffer.Buffer.EnsureWriteSpace` | http-v1/source/server.hpp:176-208 | makes room without changing the readable bytes, keeping the storage whenever they and the new ones fit, and less than doubling the need otherwise |
| `ByteBuffer.Buffer.GrownSize` | http-v1/source/server.hpp:198-206 | the doubling ends at the first doubling of the storage that holds the need |
| `HttpParser.RecvKeeps` | http-v1/source/http/http.hpp:746-817 | no body byte before the body's turn, and never as many as announced while waiting |
| `HttpParser.TwoDeliveries` | http-v1/source/http/http.hpp:647-817 | receiving bytes in two deliveries ends in the same parse state, status and request as in one, and with the same unread bytes unless the parse failed |
| `HttpParser.AnyFragmentation` | http-v1/source/http/http.hpp:647-817 | the same for every fragmentation, empty pieces included, around the 8192-byte line limit too |
| `HttpParser.LineMore` | http-v1/source/http/http.hpp:647-680 | bytes after the request line do not change how it is read, also at the line limit |
| `HttpParser.HeadMore` | http-v1/source/http/http.hpp:683-723 | bytes after a delivery do not change how the header lines are read |
| `HttpParser.BodyMore` | http-v1/source/http/http.hpp:746-773 | bytes after a delivery do not change how the body is read |
| `HttpParser.NumberReadsDecimal` | http-v1/source/http/http.hpp:452-472 | reading what to_string wrote gives the number back, modulo 2^64 |
| `HttpParser.NumberNeedsDigits` | http-v1/source/http/http.hpp:464-471 | a Content-Length with a character that is not a digit counts as 0 |
| `HttpFormat.QueryReads` | http-v1/source/http/http.hpp:622-641 | a query string written from percent-coded pairs is read back to these pairs |
| `HttpFormat.HeaderReads` | http-v1/source/http/http.hpp:726-744 | a header line written from a key and a value is read back to them |
| `HttpFormat.HeadersRead` | http-v1/source/http/http.hpp:683-744 | header lines and the empty line are read to the headers, the last of equal keys winning |
| `HttpFormat.BodyReads` | http-v1/source/http/http.hpp:746-773 | an announced body is read whole and nothing after it |
| `HttpFormat.WrittenIsRead` | http-v1/source/http/http.hpp:599-817 | a request in the wire format is parsed to its parts, and what follows it stays unread |
| `HttpFormat.VerbFolds` | http-v1/source/http/http.hpp:617-618 | folding the verb to upper case leaves it as it is exactly when it has no lower-case letter |
| `HttpFormat.CodedPathIsWritten` | http-v1/source/http/http.hpp:617-625 | a request line whose captures are the percent-coded path and query is one that stands for them |
| `HttpFormat.RequestRoundTrip` | http-v1/source/http/http.hpp:599-817 | the parser gives back, field by field, the request a client wrote with the encoder of this code, and leaves what follows unread |
| `HttpFormat.LineVerdict` | http-v1/source/http/http.hpp:599-680 | a request line is refused with 414 exactly if it is longer than 8192 bytes, and with 400 exactly if the expression does not match or some query piece has no '='; any other is taken |
| `HttpFormat.UnfinishedVerdict` | http-v1/source/http/http.hpp:647-662 | bytes without a line end are refused with 414 exactly if there are more than 8192, and wait otherwise |
| `HttpFormat.HeadLineVerdict` | http-v1/source/http/http.hpp:683-744 | a header line is refused with 414 exactly if it is longer than 8192 bytes, and with 400 exactly if it has no colon followed by a space |
| `HttpFormat.HeaderVerdict` | http-v1/source/http/http.hpp:726-744 | a header line is stored under what stands before its first colon and space, with all that follows as value |
| `HttpFormat.ChompEnds` | http-v1/source/http/http.hpp:728-731 | the line end, with or without a carriage return, is no part of a header |
| `HttpFormat.EmptyLineEnds` | http-v1/source/http/http.hpp:699-716 | the headers end at a line that is empty, with or without a carriage return |
| `HttpFormat.BadLineFails` | http-v1/source/http/http.hpp:599-680 | a request whose line is refused fails with that status, whatever follows |
| `HttpFormat.BadHeaderFails` | http-v1/source/http/http.hpp:683-744 | a bad header line after any good ones fails with that status, whatever follows |
| `HttpFormat.UpperLetters` | http-v1/source/http/http.hpp:617-618 | every small letter of the method becomes the capital one |
| `HttpDriver.OverConsumes` | http-v1/source/http/http.hpp:1016-1054 | a call that completes a request consumes at least one byte |
| `HttpDriver.OnMessage` | http-v1/source/http/http.hpp:1016-1054 | the driver, with the re-entry through ShutDown, ends with a waiting parser and no more input than before |
| `HttpDriver.AnswersMore` | http-v1/source/http/http.hpp:1016-1054 | what a stream deserves does not change when more of it arrives after a parse that waits, completes or fails |
| `HttpDriver.OnMessageAccounts` | http-v1/source/http/http.hpp:1016-1054 | the driver answers all that has arrived, owes later input what it owed before, throws the input away on a failure, and does not release the connection |
| `HttpDriver.OnMessageAnswers` | http-v1/source/http/http.hpp:1016-1054 | one call answers exactly the complete requests in its input, in order, and a failure at its end |
| `HttpDriver.StreamAnswered` | http-v1/source/http/http.hpp:1016-1054 | however a stream is cut into arrivals, and whenever responses drain, the responses written are those the whole stream deserves, in order; a stream with a failed parse gets those up to the failure first |
| `HttpDriver.OneReplyEach` | http-v1/source/http/http.hpp:1016-1054 | complete requests followed by an unfinished one deserve one response each, in order |
| `HttpDriver.OneResponsePerRequest` | http-v1/source/http/http.hpp:1016-1054 | every fragmentation of complete requests gets one response per request, in order, while the connection is not released |
| `HttpDriver.ConnectedIffKept` | http-v1/source/http/http.hpp:1027-1052 | the driver shuts the connection down exactly when a request asked for it or the parse failed; `HttpStream.StaysIffAsked` says it for requests in the wire format |
| `HttpDriver.KeepAliveOpen` | http-v1/source/http/http.hpp:1016-1054 | on an error-free keep-alive stream the connection stays open, however the stream is cut and whenever responses drain |
| `HttpDriver.KeepAliveStream` | http-v1/source/http/http.hpp:1016-1054 | an error-free keep-alive stream gets one response per complete request, in request order, and the connection stays open, whatever the fragmentation; `HttpStream.KeptStream` says it for streams in the wire format |
| `HttpDriver.ReleasedIsSilent` | http-v1/source/server.hpp:1526-1536 | on a released connection requests that do not ask to close are read and not answered |
| `HttpStream.MessageReads` | http-v1/source/http/http.hpp:599-817 | a request in the wire format is one complete request, and is read as it was meant |
| `HttpStream.StaysIffAsked` | http-v1/source/http/http.hpp:475-483 | requests in the wire format are all answered, each as it was meant, and the connection stays open exactly when the last Connection header of every one says keep-alive |
| `HttpStream.KeptStream` | http-v1/source/http/http.hpp:1016-1054 | a stream of requests in the wire format that all say keep-alive, followed by an unfinished one, gets one response to each, in order, and the connection stays open, however it is cut into arrivals and whenever responses drain |
| `HttpStream.ClosesWhenSent` | http-v1/source/server.hpp:1538-1558 | a request that does not say keep-alive is answered, and the connection is released when the response has been sent, not before |
| `HttpStream.RefusedIsAnswered` | http-v1/source/http/http.hpp:1027-1036 | input that fails is answered once, with the status of the failure; the rest is thrown away, and the connection is released when the response has been sent |
| `HttpStream.BadLineAnswered` | http-v1/source/http/http.hpp:1027-1036 | a request line that is too long is answered 414, one that the expression does not match 400 |
| `HttpServer.ReadContentLength` | http-v1/source/http/http.hpp:452-472 | the loop computes the announced length |
| `HttpServer.HttpContext.ParseHttpLine` | http-v1/source/http/http.hpp:599-643 | the method is the specified parse of the request line, with its error status |
| `HttpServer.HttpContext.StoreParams` | http-v1/source/http/http.hpp:628-641 | the parameters before the first piece without '=' are stored, and whether there was such a piece |
| `HttpServer.HttpContext.RecvHttpLine` | http-v1/source/http/http.hpp:647-680 | the method is the specified reading of the request line |
| `HttpServer.HttpContext.ParseHttpHead` | http-v1/source/http/http.hpp:726-744 | the method is the specified parse of a header line, with its error status |
| `HttpServer.HttpContext.RecvHttpHead` | http-v1/source/http/http.hpp:683-723 | the loop is the specified reading of the header lines |
| `HttpServer.HttpContext.RecvHttpBody` | http-v1/source/http/http.hpp:746-773 | the method is the specified reading of the body; the length left never wraps |
| `HttpServer.HttpContext.RecvHttpRequest` | http-v1/source/http/http.hpp:804-817 | the fall-through switch is the specified call |
| `HttpServer.Connection.OnMessage` | http-v1/source/http/http.hpp:1016-1054 | the loop is the specified driver, for which `HttpStream.StaysIffAsked` says which requests close, and terminates although ShutDownInLoop re-enters it on the same buffer |
| `HttpServer.Connection.ShutDownInLoop` | http-v1/source/server.hpp:1538-1558 | the method is the specified shutdown, which handles what is left of the input first |
| `HttpServer.Connection.HandleRead` | http-v1/source/server.hpp:1627-1671 | bytes read from the socket are appended and handled |
| `AsyncLogging.FixedBuffer.Append` | muduo_source_code/muduo/base/LogStream.h:39-47 | appends what leaves a byte free, and nothing otherwise |
| `AsyncLogging.FixedBuffer.Reset` | muduo_source_code/muduo/base/LogStream.h:57-57 | empties the buffer |
| `AsyncLogging.AppendKeeps` | muduo_source_code/muduo/base/AsyncLogging.cc:34-56 | append keeps conservation and the spare buffers, for every line shorter than a buffer |
| `AsyncLogging.QueuedIffFull` | muduo_source_code/muduo/base/AsyncLogging.cc:34-56 | in every reachable state a line goes to the current buffer exactly if current and line together are shorter than 4,000,000 bytes; otherwise the current buffer is queued and the line begins an empty one |
| `AsyncLogging.CollectKeeps` | muduo_source_code/muduo/base/AsyncLogging.cc:75-88 | the thread's critical section hands out its spares and keeps conservation |
| `AsyncLogging.CollectsAll` | muduo_source_code/muduo/base/AsyncLogging.cc:75-88 | the thread takes every queued buffer and the current one, in order, and leaves two empty ones |
| `AsyncLogging.TrimKeeps` | muduo_source_code/muduo/base/AsyncLogging.cc:92-101 | a round of more than 25 buffers keeps exactly its first two |
| `AsyncLogging.WriteKeeps` | muduo_source_code/muduo/base/AsyncLogging.cc:103-107 | buffers reach the file in order |
| `AsyncLogging.RecycleKeeps` | muduo_source_code/muduo/base/AsyncLogging.cc:109-132 | there is always a buffer to make a missing spare of, and both spares are empty at the loop head |
| `AsyncLogging.EveryRun` | muduo_source_code/muduo/base/AsyncLogging.cc:34-135 | in every interleaving the appended lines are, in order, what the rounds so far were collected from, the queued buffers and the current one; the file holds of each finished round its buffers, or the first two of more than 25; the asserts at the loop head hold |
| `AsyncLogging.NothingLost` | muduo_source_code/muduo/base/AsyncLogging.cc:75-135 | without such a round, file, pending, queued and current bytes make up everything appended |
| `AsyncLogging.LoggedIffShort` | muduo_source_code/muduo/base/AsyncLogging.cc:34-56 | a line is logged exactly when it is shorter than 4,000,000 bytes |
| `AsyncLogging.LongLineLost` | muduo_source_code/muduo/base/AsyncLogging.cc:34-56 | a line of 4,000,000 bytes is lost |
| `AsyncLogging.Logger.Append` | muduo_source_code/muduo/base/AsyncLogging.cc:34-56 | the method is the specified step |
| `AsyncLogging.Logger.Collect` | muduo_source_code/muduo/base/AsyncLogging.cc:75-90 | the method is the specified step, and something is collected |
| `AsyncLogging.Logger.Trim` | muduo_source_code/muduo/base/AsyncLogging.cc:92-101 | the method is the specified step |
| `AsyncLogging.Logger.WriteBuffers` | muduo_source_code/muduo/base/AsyncLogging.cc:103-107 | the loop writes all buffers of the round, in order |
| `AsyncLogging.Logger.Recycle` | muduo_source_code/muduo/base/AsyncLogging.cc:109-132 | the method is the specified step; its asserts hold and both spares are back and empty |
| `Calendar.NumberToDate` | muduo_source_code/muduo/base/Date.cc:21-43 | every day number of the era is that of the valid date it is converted to |
| `Calendar.DateToNumber` | muduo_source_code/muduo/base/Date.cc:21-43 | every valid date of the era survives the round trip through its number |
| `Calendar.ConsecutiveDays` | muduo_source_code/muduo/base/Date.cc:21-28 | consecutive dates have consecutive numbers |
| `Calendar.RoundTripsIffInEra` | muduo_source_code/muduo/base/Date.cc:21-43 | a valid date survives the round trip through its number exactly when it is not before the era |
| `Calendar.NumberIffInEra` | muduo_source_code/muduo/base/Date.cc:30-43 | a day number is converted to a valid date exactly when it is not before the era's first, and then is that date's number |
| `Calendar.BeforeEraInvalid` | muduo_source_code/muduo/base/Date.cc:30-43 | a day number before the era is converted to a date whose day is not positive |
| `Calendar.BeforeEraCollides` | muduo_source_code/muduo/base/Date.cc:21-28 | the day before the era shares its number with the era's first day |
| `Calendar.FloorDay` | muduo_source_code/muduo/base/TimeZone.cc:293-303 | the truncated quotient is corrected to the floor, for negative times too |
| `Calendar.EpochDay` | muduo_source_code/muduo/base/Date.cc:21-28 | 1 January 1970 is day 2440588 and second 0, 1 January 2000 is day 2451545 |
| `Calendar.FieldsInRange` | muduo_source_code/muduo/base/TimeZone.cc:285-312 | breaking a time down gives a valid date and fields in range |
| `Calendar.SecondsRoundTrip` | muduo_source_code/muduo/base/TimeZone.cc:285-312 | putting a broken-down time together gives the time back, for every second of the era |
| `Calendar.FieldsRoundTrip` | muduo_source_code/muduo/base/TimeZone.cc:498-504 | breaking a valid date and time down after putting it together gives it back |
| `Calendar.SecondsIffInEra` | muduo_source_code/muduo/base/TimeZone.cc:285-312 | breaking a time down gives valid fields that put it together again exactly when the time is not before the era |
| `Calendar.FieldsIffInEra` | muduo_source_code/muduo/base/TimeZone.cc:498-504 | a valid date and time survives the round trip through seconds exactly when it is not before the era |
| `TimeZones.AddingKeeps` | muduo_source_code/muduo/base/TimeZone.cc:49-59 | adding local times and transitions keeps a table whose transitions carry their own local time |
| `TimeZones.SegmentIs` | muduo_source_code/muduo/base/TimeZone.cc:318-356 | the search by UTC time finds the offset of the transition in force |
| `TimeZones.FindLast` | muduo_source_code/muduo/base/TimeZone.cc:358-430 | the offset the search by local time finds for a time whose local time does not come again; `TimeZones.FindAgain` and `TimeZones.FindSkipped` say it for the other local times |
| `TimeZones.FindAgain` | muduo_source_code/muduo/base/TimeZone.cc:358-430 | the offset it finds for a time whose local time comes again |
| `TimeZones.FindSkipped` | muduo_source_code/muduo/base/TimeZone.cc:387-403 | for a local time that a transition skips, the search finds the offset before the transition without the flag, and the one after it with the flag; behind the first transition it does not look |
| `TimeZones.NeverShown` | muduo_source_code/muduo/base/TimeZone.cc:387-403 | no time has a local time that a transition skips |
| `TimeZones.SkippedTime` | muduo_source_code/muduo/base/TimeZone.cc:387-403 | a skipped local time is converted to as long after the transition as it is past the clock before it, or with the flag to as long before it as it is short of the clock after it |
| `TimeZones.FurtherApart` | muduo_source_code/muduo/base/TimeZone.cc:358-430 | transitions further apart than their offset changes meet the regularity the round trips need |
| `TimeZones.PostRoundTrip` | muduo_source_code/muduo/base/TimeZone.cc:461-491 | with the post-transition flag a time comes back exactly when its local time does not come again |
| `TimeZones.PreRoundTrip` | muduo_source_code/muduo/base/TimeZone.cc:461-491 | without it exactly when its local time has not been before an inner transition and does not come again at the first or last one |
| `TimeZones.RoundTrip` | muduo_source_code/muduo/base/TimeZone.cc:461-491 | some flag gives a time back exactly when its local time does not come again at the first or last transition; both flags do when it is in no repeat |
| `TimeZones.FirstRepeatLost` | muduo_source_code/muduo/base/TimeZone.cc:358-430 | in a zone whose only transition sets the clock back, the last second before it does not come back |
| `ChunkedBody.StepKeeps` | http-v1/testTool/wrk/src/http_parser.c:1863-1990 | each byte keeps the asserts of the states and never takes a delivered byte back |
| `ChunkedBody.SizeExact` | http-v1/testTool/wrk/src/http_parser.c:1888-1923 | the chunk length is computed without wrap-around and stays below its limit |
| `ChunkedBody.RefusedAs` | http-v1/testTool/wrk/src/http_parser.c:1863-1990 | which byte is refused in which state, and with which error |
| `ChunkedBody.HexDigits` | http-v1/testTool/wrk/src/http_parser.c:221-238 | the digits of a chunk size are those of both cases and nothing else |
| `ChunkedBody.HexReadsBack` | http-v1/testTool/wrk/src/http_parser.c:1863-1923 | a chunk size written in hexadecimal is read back |
| `ChunkedBody.FoldSplits` | http-v1/testTool/wrk/src/http_parser.c:699-703 | two buffers do what their concatenation does |
| `ChunkedBody.BodyDelivered` | http-v1/testTool/wrk/src/http_parser.c:1863-1990 | every split of a well-formed body delivers exactly its data and completes once, at its last byte |
| `ChunkedBody.CompletesIffWellFormed` | http-v1/testTool/wrk/src/http_parser.c:1863-1990 | the parser completes on exactly the inputs that start with a well-formed body, and has then delivered its data |
| `ChunkedBody.HttpParser.Switch` | http-v1/testTool/wrk/src/http_parser.c:1863-1990 | the switch is the specified dispatch, and the asserts of its cases hold |
| `ChunkedBody.HttpParser.Advance` | http-v1/testTool/wrk/src/http_parser.c:699-703 | a byte outside chunk data counts toward the header size and acts as specified |
| `ChunkedBody.HttpParser.TakeData` | http-v1/testTool/wrk/src/http_parser.c:1953-1974 | as much chunk data as the buffer holds is marked for delivery; its asserts hold |
| `ChunkedBody.HttpParser.TakeByte` | http-v1/testTool/wrk/src/http_parser.c:1976-1990 | any other byte acts as specified, and the end of a chunk delivers what is marked |
| `ChunkedBody.HttpParser.Execute` | http-v1/testTool/wrk/src/http_parser.c:1863-2021 | up to the end of the message, a call on a buffer does what its bytes do one by one and returns how many it took, all unless the message ended, or the place of the byte that failed; after an error it has delivered a prefix |
| `ChunkedBody.HttpParser.ExecuteSome` | http-v1/testTool/wrk/src/http_parser.c:1999-2021 | the same for the loop, with the marked bytes delivered at the end of the buffer |
| `ChunkedBody.HttpParser.DeliverPiece` | http-v1/testTool/wrk/src/http_parser.c:1863-2021 | a call on the next piece of a well-formed body takes all of it |
| `ChunkedBody.HttpParser.DeliverBody` | http-v1/testTool/wrk/src/http_parser.c:1863-2021 | calls on the non-empty pieces of a well-formed body, however it is cut, take every byte, deliver exactly its data and complete once |
| `SudokuStat.OpenKeeps` | muduo_source_code/examples/sudoku/stat.h:120-129 | opening the next slot keeps every slot equal to the history of its second |
| `SudokuStat.MovedKeeps` | muduo_source_code/examples/sudoku/stat.h:101-141 | next second, jump ahead within the window and jump beyond it keep the window exact; `SudokuStat.MovedSpans` says which seconds it then has |
| `SudokuStat.MovedSpans` | muduo_source_code/examples/sudoku/stat.h:101-141 | the window goes on to the new second and drops what is sixty seconds older, starts over at it exactly if that is sixty or more seconds on, and stays for an earlier one |
| `SudokuStat.RecordSpans` | muduo_source_code/examples/sudoku/stat.h:85-160 | the same for a recorded response |
| `SudokuStat.SlotsAfter` | muduo_source_code/examples/sudoku/stat.h:85-160 | how many slots a response leaves: one more for each second up to sixty, one after a pause of a minute, and as many as before for an earlier second |
| `SudokuStat.CountedKeeps` | muduo_source_code/examples/sudoku/stat.h:101-158 | counting a response keeps the window exact, a discarded one included |
| `SudokuStat.WindowIsExact` | muduo_source_code/examples/sudoku/stat.h:85-160 | after any sequence of responses and resets each slot holds the exact count and latency sum of its second; `SudokuStat.WindowSpans` says which seconds have a slot |
| `SudokuStat.WindowSpans` | muduo_source_code/examples/sudoku/stat.h:85-160 | after any sequence of responses and resets the first and the last second that have a slot are those a fold over the responses alone gives |
| `SudokuStat.TotalsAreExact` | muduo_source_code/examples/sudoku/stat.h:89-99 | the totals count every response since the reset, with or without a slot |
| `SudokuStat.DiscardedIffOld` | muduo_source_code/examples/sudoku/stat.h:142-158 | a response changes the window exactly when its second is not before the first slot's |
| `SudokuStat.Statistics.FindSlot` | muduo_source_code/examples/sudoku/stat.h:101-158 | the branches move the window as specified and find the slot, or none |
| `SudokuStat.Statistics.JumpAhead` | muduo_source_code/examples/sudoku/stat.h:117-138 | the push loop and the clearing move the window as specified, to the seconds `SudokuStat.MovedSpans` gives |
| `SudokuStat.Statistics.Tally` | muduo_source_code/examples/sudoku/stat.h:99-159 | the method is the specified recording |
| `SudokuStat.Statistics.RecordResponse` | muduo_source_code/examples/sudoku/stat.h:85-160 | the method is the specified recording and keeps the window exact, over the seconds `SudokuStat.RecordSpans` gives |
| `SudokuStat.Statistics.ReSet` | muduo_source_code/examples/sudoku/stat.h:68-83 | everything starts over |

## Left out

- Socket, epoll, timerfd, eventfd and file calls: each is a nondeterministic result, not code.
- `EventLoop`, `TcpServer`: the loops, functor queues and channels are step relations on values, because their promise is about all interleavings; the vector swap and the channel objects are not modelled as heap objects.
- `EventLoop.quit` and destruction of loops: the loop is modelled until it stops. Of the server's destructor, what it does to one connection is modelled and not when it runs.
- TcpServer.LifeInOrder: assumes that no store to the connection state races with a close, that the excluded event sets are not reported, and that reading is not started after the close nor stopped after connectDestroyed; each exclusion has a lemma that shows what it costs and one that gives the exact condition.
- `TcpServer` reading: the flag `reading_` is not kept beside the channel's interest; a startRead or stopRead whose test fails does nothing and is no step.
- `TcpConnection` callbacks for write completion and high water mark: they do not touch the byte stream.
- TimerWheel.RunRefinesPlan: assumes that a timer is added only under an id that HasTimer does not find, that the 32-bit addition of a timeout does not wrap, and that no callback puts a reference into the slot that is being cleared; `TimerWheel.CallIsSafeIff` shows the first and the last to be exact.
- TimerQueue.DoKeeps: a timer made by another thread enters the model when its functor inserts it; sequence numbers are given then, and intervals are whole microseconds.
- `TimerQueue` and timestamps before the epoch: expirations are positive, as in the source's use.
- The request-line expression: a function from a line to its captures, given as a parameter.
- `ByteBuffer.Buffer`: sizes are unbounded; 64-bit wrap-around of indices is not modelled.
- HttpDriver.OnMessage: a response is recorded as the request it answers and the status the parser gave it; routing, handlers, static files, MIME and status tables and the response text are not modelled.
- HttpDriver.KeepAliveOpen: arrivals and drains are the only events; the source also releases a keep-alive connection from the inactivity timer, on a close by the peer and on a write error, which are not modelled.
- HttpServer.Connection.HandleRead: a read that returned data; a close by the peer and a read error go to HandleClose and are not modelled.
- HttpDriver.OneResponsePerRequest: says nothing after the connection has been released; how often the close callbacks then run is not modelled.
- AsyncLogging.EveryRun: bytes appended after the last collection before `stop` are not written by the source and not covered; buffers are exclusive values, so a moved-from pointer is `None`.
- Calendar.NumberToDate: integers are unbounded; dates whose day number leaves 32 bits are not covered.
- `TimeZones`: reading TZif files, and tables whose transitions are not sorted, for which the source's search is undefined.
- ChunkedBody.HttpParser.Execute: stops at the end of the message, and the returned count is meant up to there; the source goes on with the next message in the same buffer unless the connection is upgraded. The same holds for `ChunkedBody.HttpParser.ExecuteSome`.
- ChunkedBody.BodyDelivered: trailer fields after the last chunk, and everything of `http_parser.c` before the body, are not modelled; callbacks return 0 and do not pause.
- SudokuStat.WindowIsExact: counters are unbounded; the text of `report` and the request counters are not modelled.
- Multiplexer, socks4a, hub, FastCGI and chat examples, curl, cdns, Lua scripting, SSL, plotting, latency statistics of wrk: simpler framing, foreign libraries or floating point.
- `Any`, singletons, thread-locals, mutex and condition wrappers, latches, thread pools: they would only add easy members.
