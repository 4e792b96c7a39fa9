# Burger, verified

A Dafny model of the parts of the Burger network library and its examples in which correctness is hardest to see, with
proofs of what they are for. `dafny verify dfyconfig.toml` checks everything.

| files | what they model |
|---|---|
| `DancingLinks`, `Covering`, `ExactCover`, `CoverSearch`, `RowChoice`, `Building`, `SudokuRules`, `Encoding`, `Layout`, `SolverFacts`, `Puzzles`, `SudokuSolver` | the dancing-links Sudoku solver: the links as an array edited in place, the search, the encoding of a board, and puzzles as texts |
| `Options`, `MpscQueue`, `EventLoop` | the lock-free queue and the wakeup protocol of the event loop on it, as interleaved atomic steps |
| `ConfigExpression` | the compiler of infix expressions and its stack machine |
| `Bytes`, `Buffer`, `Circles`, `RingBuffer`, `Codec` | byte buffers, integers in network byte order, and the framing of messages |
| `Channel`, `Connection`, `Lifecycle`, `ConnectionEffects`, `TcpConnection`, `TcpServer` | channels and the kernel's interest set, the life of a connection, and the server's table |
| `Timers`, `TimerFacts`, `TimerEffects`, `TimerQueue` | timers: the ordered set, cancellation from inside callbacks, rearming |
| `CopyOnWrite` | the chat server's shared set of connections |

How the model is built:

- Objects that change in place are classes or arrays, and each method is proved against a function of the state before it;
  the lemmas are about those functions and about every run of them. Pointers of the solver's node pool are indices into
  its array; the solver's ghost parameters (matrix, picture) only name what the links show.
- Threads are state machines whose steps are the atomic operations, in any interleaving; each atomic operation is one
  sequentially consistent step. A step that touches a freed node, or fails an assertion of the program, leads to a crash
  or sets a flag, and the theorems say that this does not happen.
- What a run did is told twice: by histories in the state, which the invariants speak of, and by its steps alone, which
  the main results speak of (`Given`, `SentOver`, `StepCancels`, `BookAfter`); lemmas prove the two the same.
- What the operating system returns (the size of a partial write, an error, the bytes read, the events) and what the
  user's callbacks call are parameters, and the theorems hold for all of them.
- Assertions of the program are preconditions or explicit results, never silently assumed: where the code can fail one,
  the exact condition is proved (`RingBuffer.EnsureWritableBytes`, `Lifecycle.AssertionsHoldIff`,
  `TimerQueue.GetExpiredList`).

Where the code and its comments disagree, the code is followed: `getExpiredList` takes the entries strictly before now,
its comment includes those at now (burger/net/ITimerQueue.cc:72-76); the length limit of the codec is 65536, its comment
says 4k (examples/chat/codec.h:28); `queueInLoop` wakes the loop only from other threads, its comment would also do so
from functions being run by the loop (burger/net/EventLoop.cc:131-136). Neither of the last two breaks a promise; the
first is why `GetExpiredList` reports whether a timer is due exactly at now.

What was found not to hold, each with its exact condition and an example:

- Functions queued on the loop's own thread before `loop()` may wait without a wakeup to come (`LostWakeupIff`,
  `LostWakeupExample`): they are called only when something else wakes the loop or `epoll_wait` times out, after ten
  seconds (burger/net/EventLoop.cc:15, 75).
- The ring buffer folds an index whose sum falls into `[capacity_, totalSize_)` to before the circle. Appending with such
  a fold is harmless by itself: everything is still handed out right. Bytes are lost when a read index is folded so and
  the bytes found there are not those at the end of the vector (`RetrieveLoses`, `RetrieveExample`), when data are
  appended into the gap behind a write index folded so and the end of the vector does not hold them already
  (`AppendLoses`, `AppendExample`), or when the readable bytes begin before the circle and the write
  index is folded past their beginning. Making room can fail its assertion (`RoomFails`, `RoomExample`).
- A dispatch with EPOLLHUP and EPOLLPRI but not EPOLLIN that reads the end of the stream closes the connection twice
  (`AssertionsHoldIff`, `ClosedTwiceExample`). The code tests EPOLLRDHUP as well, but never registers it, so that it
  does not arrive (`ClosedTwiceNeedsPri`).
- A timer due exactly at now fails an assertion (`GetExpiredList`, `TieExample`).
- `wrapAndSend` frames messages that `decode` refuses (`FrameComesBackIff`, whose condition names every such message).

## Model

| member | source | states |
|---|---|---|
| Sudoku.SolveSudoku | examples/sudoku/sudoku.cc:248-271 | for every 81 characters, in characters: if all are '0' to '9' and a complete grid with these givens exists, the result is one - 81 characters '1' to '9', every given in its place, no two equal in a row, column or box - and otherwise the result is `NoSolution` |
| Sudoku.SolveBoard | examples/sudoku/sudoku.cc:261-262 | building and searching finds a solution exactly if the board has one, and leaves it in the board |
| Puzzles.DigitRead | examples/sudoku/sudoku.cc:255 | a character reads as d exactly if it is the d-th of `0123456789` |
| Puzzles.SolvesPuzzleIff | examples/sudoku/sudoku.cc:250-269 | a text solves the puzzle exactly if its digits are a solution that agrees with the puzzle's digits |
| Puzzles.SolvableIff | examples/sudoku/sudoku.cc:250-269 | a puzzle has a solution as text exactly if its board has one |
| Sudoku.SudokuSolver.Solve | examples/sudoku/sudoku.cc:91-128 | on any well-formed matrix the search terminates and succeeds exactly if the remaining exact cover problem is solvable; on success the rows on the stack are a cover and are written to the board, on failure every link, size, stack entry and cell is as before |
| Sudoku.SudokuSolver.TryRows | examples/sudoku/sudoku.cc:113-125 | the row loop fails only if no row of the column leaves a solvable problem, and then has undone everything |
| Sudoku.SudokuSolver.TryRow | examples/sudoku/sudoku.cc:114-124 | one turn: the row on the stack, its columns covered, the search below it, and exact undo if that fails |
| Sudoku.SudokuSolver.GetMinColumn | examples/sudoku/sudoku.cc:191-205 | an uncovered column: the leftmost with at most one row, else the leftmost of the smallest |
| Sudoku.SudokuSolver.Cover | examples/sudoku/sudoku.cc:207-217 | the array after covering is the covering transformation of the array before |
| Sudoku.SudokuSolver.Uncover | examples/sudoku/sudoku.cc:219-229 | from the covered array the very array before the covering |
| Sudoku.SudokuSolver.UnlinkMates | examples/sudoku/sudoku.cc:211-215 | the inner loop takes exactly the other nodes of the row out of their columns, sizes included |
| Sudoku.SudokuSolver.RelinkMates | examples/sudoku/sudoku.cc:221-225 | the inner loop of uncovering, leftwards, puts them back |
| Sudoku.SudokuSolver.RelinkRows | examples/sudoku/sudoku.cc:220-226 | the row loop of uncovering, from below |
| Sudoku.SudokuSolver.CoverMates | examples/sudoku/sudoku.cc:115-117 | covers the other columns of the row one by one |
| Sudoku.SudokuSolver.UncoverMates | examples/sudoku/sudoku.cc:122-124 | uncovers them leftwards, back through the same states |
| Sudoku.SudokuSolver.WriteStack | examples/sudoku/sudoku.cc:93-107 | each stacked row puts the value it names into the cell it names, bottom first |
| Sudoku.SudokuSolver.ReadRow | examples/sudoku/sudoku.cc:94-104 | the cell and the value of a row, read rightwards from any of its nodes |
| Sudoku.SudokuSolver.constructor | examples/sudoku/sudoku.cc:30-89 | the matrix laid out stands for the exact cover encoding of the board |
| Sudoku.SudokuSolver.MarkGivens | examples/sudoku/sudoku.cc:43-51 | a digit is marked in a row, column or box exactly if a given puts it there |
| Sudoku.SudokuSolver.AppendCellColumns | examples/sudoku/sudoku.cc:53-57 | a column for exactly the empty cells |
| Sudoku.SudokuSolver.AppendAllUnitColumns | examples/sudoku/sudoku.cc:59-68 | a column for exactly the digits that a unit lacks |
| Sudoku.SudokuSolver.AppendRows | examples/sudoku/sudoku.cc:70-88 | a row for exactly the candidates, each joined from the four nodes of its columns |
| Sudoku.SudokuSolver.AddRow | examples/sudoku/sudoku.cc:78-84 | one candidate more is spelled by the matrix |
| Sudoku.SudokuSolver.NewColumn | examples/sudoku/sudoku.cc:139-151 | a fresh node that links to itself |
| Sudoku.SudokuSolver.AppendColumn | examples/sudoku/sudoku.cc:153-159 | the header joins the ring at the right and the directory |
| Sudoku.SudokuSolver.NewRow | examples/sudoku/sudoku.cc:161-177 | a fresh node hung below its column, whose size grows |
| Sudoku.SudokuSolver.PutLeft | examples/sudoku/sudoku.cc:231-236 | the four link writes |
| Sudoku.SudokuSolver.PutUp | examples/sudoku/sudoku.cc:238-245 | the four link writes, the size and the column |
| DancingLinks.UnlinkAllColumns | examples/sudoku/sudoku.cc:211-215 | taking a run of nodes out leaves every column the ring of its other nodes, with the matching size |
| DancingLinks.RelinkUnlinkAll | examples/sudoku/sudoku.cc:211-215 | relinking the run backwards gives the very array back |
| Covering.CoverShows | examples/sudoku/sudoku.cc:207-217 | covering keeps the matrix well formed: the columns and rows that remain are those that do not meet the column |
| Covering.UncoverCover | examples/sudoku/sudoku.cc:207-229 | uncover undoes cover exactly: every link and every size |
| RowChoice.UncoverManyCoverMany | examples/sudoku/sudoku.cc:115-124 | any sequence of covers is undone by the uncovers in the opposite order |
| CoverSearch.CoverProblem | examples/sudoku/sudoku.cc:112 | covering a column leaves the problem without the column and the rows that fill it |
| RowChoice.RowProblem | examples/sudoku/sudoku.cc:112-117 | choosing a row leaves the problem reduced by the columns it fills |
| ExactCover.Branch | examples/sudoku/sudoku.cc:111-126 | branching over the rows of one column is complete: solvable exactly if some row of the column leaves a solvable problem |
| Building.ColumnAppended | examples/sudoku/sudoku.cc:153-159 | appending a column shows the old matrix with an empty column at the right end |
| Building.NodeHung | examples/sudoku/sudoku.cc:161-177 | hanging a node below a header shows it last in that column |
| Building.RowJoined | examples/sudoku/sudoku.cc:82-84 | the three put_left calls join the four nodes into one row |
| Layout.RowLaidOut | examples/sudoku/sudoku.cc:76-85 | laying out a candidate adds exactly its row to what the matrix spells |
| Layout.LayoutEncodes | examples/sudoku/sudoku.cc:53-88 | the completed layout stands for the encoding: needed columns, candidate rows |
| SudokuRules.SolutionIffAllDigits | examples/sudoku/sudoku.cc:59-68 | for complete grids, no digit twice in a unit is the same as every digit in every unit; the counting behind contradictory givens |
| Encoding.GridToCover | examples/sudoku/sudoku.cc:53-88 | every solution that agrees with the givens gives an exact cover of the encoding |
| Encoding.CoverToGrid | examples/sudoku/sudoku.cc:53-107 | every exact cover, played onto the board, gives a solution that agrees with the givens |
| SolverFacts.FoundSolves | examples/sudoku/sudoku.cc:93-108 | the board the search leaves is a solution that agrees with the givens |
| SolverFacts.NotFound | examples/sudoku/sudoku.cc:126-127 | if the search fails the board has no solution |
| MpscQueue.FifoUnderEveryInterleaving | burger/base/MpscQueue.h:44-71 | under every interleaving no step touches a deleted node, and values dequeued followed by values queued are the values that the producers' calls were given, told from the schedule alone, in the order of their head exchanges |
| MpscQueue.StepInv | burger/base/MpscQueue.h:44-71 | every step of every thread is safe and keeps the invariant |
| MpscQueue.ExecGiven | burger/base/MpscQueue.h:44-56 | from any state of any run, what is enqueued grows by exactly the arguments of the calls whose exchange the schedule has, in exchange order |
| MpscQueue.ThreadsProceed | burger/base/MpscQueue.h:51-71 | no thread is held up by others: a call of enqueue appends its value in its own three steps whatever else is under way, and a call of dequeue takes the first value not dequeued and frees one node in its own four, or leaves all as it is |
| MpscQueue.LoadFindsFirst | burger/base/MpscQueue.h:60-65 | dequeue reports empty exactly if nothing is queued or the first value's producer is between its exchange and its store |
| MpscQueue.TakesInOrder | burger/base/MpscQueue.h:66 | the value taken is the first enqueued that has not been dequeued |
| MpscQueue.NothingElseAllocated | burger/base/MpscQueue.h:37-42 | with no thread inside an operation exactly the nodes of the chain are allocated: no leak |
| MpscQueue.Queue.Enqueue | burger/base/MpscQueue.h:51-56 | one thread at a time: the value goes to the end |
| MpscQueue.Queue.Dequeue | burger/base/MpscQueue.h:58-71 | one thread at a time: the first value, or nothing exactly if nothing is queued |
| MpscQueue.Queue.Destroy | burger/base/MpscQueue.h:36-42 | the destructor dequeues every value and frees every node, each once |
| EventLoop.NoLostWakeup | burger/net/EventLoop.cc:72-88 | on every interleaving, whenever the loop is about to block with a function pending, the eventfd is nonzero or a foreign thread has still to write it (nothing queued on the loop thread before loop()) |
| EventLoop.StepInv | burger/net/EventLoop.cc:129-144 | every step of every thread keeps the invariant and the wakeup |
| EventLoop.CallsInOrder | burger/net/EventLoop.cc:264-275 | the functions called are those given to queueInLoop in the schedule, in exchange order, each once |
| EventLoop.SleepsOnlyWhenDone | burger/net/EventLoop.cc:72-88 | when the loop blocks with no wakeup there or to come, every function given to queueInLoop so far has been called, in order |
| EventLoop.WokenCallsAll | burger/net/EventLoop.cc:72-88 | once it is woken and no other thread is inside queueInLoop, the loop's own next steps call all that was queued, in order, and lead it back to waiting with the eventfd at zero |
| EventLoop.WakeupCounter | burger/net/EventLoop.cc:183-189 | writing makes the eventfd readable, reading makes it zero, nothing else changes it; a write is owed from a foreign exchange on until it is made |
| EventLoop.DrainsAll | burger/net/EventLoop.cc:264-275 | the drain ends with everything called, unless a foreign thread is inside queueInLoop |
| EventLoop.LostAtStart | burger/net/EventLoop.cc:129-144 | the loop starts by blocking with a function pending and no wakeup to come exactly if its own thread queued one before loop() and no other thread queued one or wrote the eventfd |
| EventLoop.LostWakeupIff | burger/net/EventLoop.cc:65-91 | at some moment of a run the loop is about to block with a function pending and no wakeup to come, if and only if its own thread queued one before loop() and no other thread queued one or wrote the eventfd by then |
| EventLoop.LostWakeupExample | burger/net/EventLoop.cc:129-144 | a run in which that wakeup is lost |
| ConfigExpression.GetIntFromStringExpression | burger/base/Config.cc:95-156 | the loops compute the function Evaluate on every text |
| ConfigExpression.SumEvaluates | burger/base/Config.cc:95-156 | every expression of the grammar, with any spaces, evaluates to its meaning in plain arithmetic |
| ConfigExpression.ParseIsSum | burger/base/Config.cc:54-58 | the trees compiled are those of the grammar: a sum of terms joined by + and -, a term of factors joined by * and /, a factor a number or a sum in parentheses, both grouped to the left |
| ConfigExpression.EvalIsMeaning | burger/base/Config.cc:74-93 | the value of a tree is that of its sums, differences, products and quotients, while numbers and results fit a 32-bit signed integer |
| ConfigExpression.QuotientCutsOff | burger/base/Config.cc:88-90 | the quotient times the divisor lies between zero and the dividend, less than a divisor away from it |
| ConfigExpression.QuotientOnly | burger/base/Config.cc:88-90 | no other number does |
| ConfigExpression.SuffixIsPostorder | burger/base/Config.cc:96-139 | the suffix of an expression is the postorder of its precedence-respecting, left-associative parse tree |
| ConfigExpression.EvaluateMeansParse | burger/base/Config.cc:95-156 | evaluation never pops an empty stack and returns the tree's value with truncating division; no result exactly if an intermediate value overflows or a divisor is zero |
| ConfigExpression.WrittenExpressionValue | burger/base/Config.cc:95-156 | every expression, written with any spaces, evaluates to its value |
| ConfigExpression.InfixIff | burger/base/Config.cc:95-156 | the token sequences in which operands and operators alternate and parentheses match are exactly those of the parse trees |
| ConfigExpression.ParseUnique | burger/base/Config.cc:95-156 | a token sequence has at most one precedence-respecting, left-associative parse tree |
| ConfigExpression.InfixEvaluates | burger/base/Config.cc:95-156 | every text whose tokens are well-formed evaluates to the value of its one parse tree |
| ConfigExpression.LexWritten | burger/base/Config.cc:100-112 | the tokens of a text do not depend on the spaces |
| ConfigExpression.FeedTree | burger/base/Config.cc:113-134 | feeding a tree's tokens to any looser operator stack moves out all but its spine of operators |
| ConfigExpression.PushTree | burger/base/Config.cc:141-155 | running a postorder pushes exactly the tree's value onto any number stack |
| ConfigExpression.RunPostfix | burger/base/Config.cc:141-155 | the second loop computes PushAll |
| Bytes.EncodeDecode | burger/net/Buffer.cc:134-204 | an integer of any width reads back from network byte order as it was written |
| Bytes.DecodeEncode | burger/net/Buffer.cc:134-204 | every byte sequence is the encoding of the integer it decodes to |
| Bytes.BigEndianByte | burger/net/Buffer.cc:134-204 | byte i of n is `x / 256^(n-1-i) % 256`: the most significant comes first |
| ByteFifo.Conserved | burger/net/Buffer.cc:67-117 | on every run of puts and gets of a byte FIFO, bytes taken followed by bytes left are the bytes put in |
| Buffers.Buffer.constructor | burger/net/IBuffer.h:21-24 | an empty buffer with eight prependable bytes |
| Buffers.Buffer.Append | burger/net/Buffer.cc:102-106 | the content grows by the data at its end, whichever way room is made |
| Buffers.Buffer.Prepend | burger/net/Buffer.cc:112-117 | the content grows at its front, within the prependable bytes |
| Buffers.Buffer.Retrieve | burger/net/Buffer.cc:67-74 | drops exactly the first bytes |
| Buffers.Buffer.RetrieveAsString | burger/net/Buffer.cc:87-92 | returns and drops exactly the first bytes |
| Buffers.Buffer.MakeSpace | burger/net/Buffer.cc:232-245 | both branches keep the content; where bytes are moved, the asserted `kCheapPrepend < readrIndex_` holds |
| Buffers.Buffer.EnsureWritableBytes | burger/net/Buffer.cc:119-124 | room for len bytes, content kept |
| Buffers.Buffer.Shrink | burger/net/Buffer.cc:126-132 | content kept, with the reserve writable |
| Buffers.Buffer.Swap | burger/net/Buffer.cc:24-36 | the contents change places |
| Buffers.Buffer.ReadFd | burger/net/Buffer.cc:208-230 | all bytes read, in the buffer and in the spare block, follow the content |
| Buffers.Buffer.AppendInt | burger/net/Buffer.cc:185-204 | an integer is appended in network byte order |
| Buffers.Buffer.ReadInt | burger/net/Buffer.cc:161-183 | an integer is read from the front in network byte order |
| Buffers.Replay | burger/net/Buffer.cc:67-245 | any run of appends, retrievals, prepends, shrinks and reads does what UsedAll says of the bytes taken out and left, up to the first use that is not allowed |
| Buffers.UsesAreFifo | burger/net/Buffer.cc:67-245 | without prepending, every such run is one of a byte FIFO |
| Buffers.ReadsBack | burger/net/Buffer.cc:134-204 | integers come back as appended and what follows is left |
| RingBuffers.RingBuffer.Append | burger/net/RingBuffer.cc:230-242 | from any state with folded indices: what is handed out afterwards is the old content followed by the data, misfolded or not, exactly unless AppendLoses; nothing is lost when the assertion ends the call |
| RingBuffers.RingBuffer.Write | burger/net/RingBuffer.cc:233-241 | the copy and the moved write index keep and extend the content exactly unless AppendLoses; the vector is the old one with the data copied in |
| RingBuffers.RingBuffer.CopyIn | burger/net/RingBuffer.cc:233-240 | copied in one piece, or in two if the data overlap the end of the vector |
| RingBuffers.RingBuffer.HasWritten | burger/net/RingBuffer.cc:94-100 | the write index moves on and is folded; it stays in the circle exactly unless the sum is in `[capacity_, totalSize_)` |
| RingBuffers.RingBuffer.Retrieve | burger/net/RingBuffer.cc:173-181 | what is left is the old content without its first bytes, always if the index moved on is outside `[capacity_, totalSize_)`, and else exactly unless the bytes before the circle are not those at the end of the vector |
| RingBuffers.RingBuffer.RetrieveAsString | burger/net/RingBuffer.cc:202-220 | returns the first bytes in order, in every state; what is left as for retrieve |
| RingBuffers.RingBuffer.MakeSpace | burger/net/RingBuffer.cc:401-421 | all three branches keep the content in every state; room is made exactly unless the move to a new buffer misfolds its write index |
| RingBuffers.RingBuffer.MoveOut | burger/net/RingBuffer.cc:414-420 | the content is moved to a new buffer of exactly this capacity, misfolded write index or not |
| RingBuffers.RingBuffer.EnsureWritableBytes | burger/net/RingBuffer.cc:255-260 | content kept; the assertion at its end holds exactly unless RoomFails |
| RingBuffers.RingBuffer.Shrink | burger/net/RingBuffer.cc:262-268 | content kept in every state; the capacity, and when the write index is misfolded |
| RingBuffers.RingBuffer.GetReadableBytes | burger/net/RingBuffer.cc:46-55 | the length of the content in every state |
| RingBuffers.RingBuffer.GetWritableBytes | burger/net/RingBuffer.cc:57-75 | the free bytes less the gap kept in front of the readable ones |
| RingBuffers.RingBuffer.InCircleAppends | burger/net/RingBuffer.cc:230-242 | while no index is before the circle, no append loses a byte |
| RingBuffers.Replay | burger/net/RingBuffer.cc:94-242 | any run of appends and retrievals does what it does to a byte FIFO, across wraparound, growth and harmless misfolds, up to the first operation that loses bytes or fails the assertion; after a losing one the contents do differ |
| Circles.DropExact | burger/net/RingBuffer.cc:173-181 | moving the read index drops exactly the first bytes if and only if it is not DropLoses |
| Circles.WriteExact | burger/net/RingBuffer.cc:94-100 | copying data in and moving the write index appends them if and only if it is not WriteLoses |
| Circles.WriteSplit | burger/net/RingBuffer.cc:233-237 | data split at the end of the vector are read back in one piece |
| RingBuffers.RetrieveExample | burger/net/RingBuffer.cc:173-181 | a run that hands out the bytes before the circle instead of the eight appended |
| RingBuffers.AppendExample | burger/net/RingBuffer.cc:94-100 | a run in which the bytes appended come back only if they are zero |
| RingBuffers.RoomExample | burger/net/RingBuffer.cc:255-260 | a run in which appending one byte fails the assertion while eight are free |
| Framing.MessagesComeBack | examples/chat/codec.h:22-50 | for messages of at most 65536 bytes, framed, concatenated and cut into any chunks: the callbacks get exactly the completed messages in order, the buffer holds the undecoded rest |
| Framing.AllMessagesComeBack | examples/chat/codec.h:22-50 | once all chunks have come, all messages have been handed over and nothing is left |
| Framing.ChunkingIrrelevant | examples/chat/codec.h:22-41 | decoding chunk by chunk is decoding all at once, on any bytes, invalid headers included |
| Framing.DecodeResumes | examples/chat/codec.h:22-41 | decoding a first part and going on with the rest is decoding the whole |
| Framing.PrefixDecodes | examples/chat/codec.h:22-41 | from any prefix of the frames exactly the complete messages are decoded |
| Framing.FrameComesBackIff | examples/chat/codec.h:43-50 | wrapAndSend does not check the size: its frame decodes to the message exactly if that is at most 65536 bytes |
| Framing.DecodedIff | examples/chat/codec.h:22-41 | on any bytes: the decoder takes them apart into frames of at most 65536 bytes and a rest that is no whole frame, in the one way there is, and shuts down exactly if the rest begins with a length, read from its four bytes, that is larger or negative |
| Framing.FrameBytes | examples/chat/codec.h:43-48 | the bytes of a frame: the length in four bytes, most significant first, and the message |
| Framing.LengthHeaderCodec.DecodeBuffer | examples/chat/codec.h:22-41 | the loop hands over what DecodeAll says, leaves its rest in the buffer, and shuts down exactly on an invalid length |
| Framing.LengthHeaderCodec.Wrap | examples/chat/codec.h:43-48 | the buffer sent is the frame of the message |
| Framing.Receive | examples/chat/codec.h:22-41 | append-then-decode over a list of chunks delivers what Feed says |
| Polling.Epoll.UpdateChannel | burger/net/Epoll.cc:46-78 | every ADD, MOD and DEL is legal for the kernel's set, and afterwards status, map and kernel mask of every channel agree |
| Polling.Epoll.RemoveChannel | burger/net/Epoll.cc:80-95 | one entry erased, DEL only if registered, all channels agree afterwards |
| Polling.Epoll.Forget | burger/net/Channel.cc:22-29 | a destroyed channel is in no map, as asserted, and its descriptor is free for another |
| Polling.Epoll.FillActiveChannels | burger/net/Epoll.cc:100-114 | the asserted map entries are there; each reported channel gets its events, in order |
| Polling.Epoll.EpollCtl | burger/net/Epoll.cc:116-133 | the kernel's set after the call; a registered descriptor cannot be added nor an unregistered one changed |
| Polling.Channel.EnableReading | burger/net/Channel.h:60 | mask, status, map and kernel set after the call; nothing else changes |
| Polling.Channel.DisableReading | burger/net/Channel.h:61 | the same for disabling reading |
| Polling.Channel.EnableWriting | burger/net/Channel.h:62 | the same for enabling writing |
| Polling.Channel.DisableWriting | burger/net/Channel.h:63 | the same for disabling writing |
| Polling.Channel.DisableAll | burger/net/Channel.h:64 | the same for disabling everything |
| Polling.Channel.Update | burger/net/Channel.cc:46-49 | the kernel learns the new mask |
| Polling.Channel.Remove | burger/net/Channel.cc:52-56 | out of the map and of the kernel's set |
| Polling.DismissedIff | burger/net/Epoll.cc:52-76 | whatever the history of masks: the descriptor is out of the kernel's set exactly after an odd run of empty masks behind a nonempty one, or a positive even run from the start |
| Lifecycle.BytesConserved | burger/net/TcpConnection.cc:186-210 | on every run: bytes taken by the socket followed by the output buffer are the messages sent, in order, but for those given up on EPIPE or ECONNRESET, for every pattern of partial writes; writing is enabled exactly while the buffer is nonempty |
| ConnectionEffects.RunDelivers | burger/net/TcpConnection.cc:58-69 | on every run in which the connection is not found broken, what the socket has taken followed by the output buffer is, message after message, what the send calls made while connected were given, read off the steps and the scripts of the callbacks |
| ConnectionEffects.RunSends | burger/net/TcpConnection.cc:58-69 | the messages of a run are exactly those of the send calls made while connected, in order |
| ConnectionEffects.SendAdds | burger/net/TcpConnection.cc:239-286 | on a connected connection what the socket has taken followed by the output grows by exactly the data, and by nothing exactly if the write was tried and found the connection broken |
| ConnectionEffects.SendMeans | burger/net/TcpConnection.cc:58-69 | which bytes a send writes, buffers or gives up, and that it changes nothing unless connected |
| ConnectionEffects.ShutdownMeans | burger/net/TcpConnection.cc:111-119 | a connected connection is disconnecting and shut down at once unless the channel waits to write; any other is unchanged |
| ConnectionEffects.ForceCloseMeans | burger/net/TcpConnection.cc:121-126 | an open connection is disconnecting with a close queued, which, when it is run, disconnects it with the down callback, or does nothing if it has been closed since |
| ConnectionEffects.WriteMeans | burger/net/TcpConnection.cc:186-210 | which bytes leave the buffer on a writable event; when none is left, writing is disabled and a pending shutdown carried out |
| ConnectionEffects.DispatchMeans | burger/net/Channel.cc:76-98 | a dispatch to an open connection closes it on a hangup without input or at the end of the stream; otherwise bytes go to the callback, and then a writable socket is written to |
| ConnectionEffects.EstablishMeans | burger/net/TcpConnection.cc:132-141 | an accepted connection becomes connected, reading EPOLLIN and EPOLLPRI, with the up callback |
| ConnectionEffects.TeardownMeans | burger/net/TcpConnection.cc:143-153 | the queued removal takes a closed connection out of the table, and the queued destruction removes its channel |
| Lifecycle.ShutDownOnce | burger/net/TcpConnection.cc:290-295 | shutdownWrite at most once, with the output buffer empty and everything that was not given up written, and no byte written or buffered after it |
| Lifecycle.ShutdownCarriedOut | burger/net/TcpConnection.cc:194-203 | a shutdown put off by unsent bytes is carried out exactly when the socket has taken them all |
| Lifecycle.ClosedOnce | burger/net/TcpConnection.cc:212-224 | up and down callbacks once each and in this order; one close, one removal from the map, one destruction |
| Lifecycle.OnwardAlways | burger/net/TcpConnection.cc:132-153 | the status only moves forward |
| Lifecycle.AssertionsHoldIff | burger/net/Channel.cc:76-98 | the asserted states hold throughout a run exactly if no dispatch, of those the kernel can deliver, has EPOLLHUP without EPOLLIN, passes the test for EPOLLIN, EPOLLPRI or EPOLLRDHUP, and reads the end of the stream |
| Lifecycle.ClosedTwiceExample | burger/net/Channel.cc:81-93 | a dispatch that the kernel can deliver and that closes the connection twice |
| Lifecycle.ClosedTwiceNeedsPri | burger/net/Channel.cc:7-9 | such a dispatch announces out-of-band data: EPOLLRDHUP is never registered |
| Lifecycle.StepKeeps | burger/net/TcpConnection.cc:58-302 | every step keeps the invariant of status, mask, buffer, queues and history |
| Lifecycle.HandleEventKeeps | burger/net/Channel.cc:76-98 | a dispatch keeps the invariant, and fails the assertion of handleClose exactly if the connection is found closed twice |
| TcpConnections.TcpConnection.constructor | burger/net/TcpConnection.cc:22-42 | a connecting connection with empty buffers |
| TcpConnections.TcpConnection.Send | burger/net/TcpConnection.cc:58-69 | refused unless connected; else sendInLoop |
| TcpConnections.TcpConnection.SendInLoop | burger/net/TcpConnection.cc:239-286 | written as far as the socket takes it, the rest buffered, writing enabled; dropped on EPIPE or ECONNRESET |
| TcpConnections.TcpConnection.Keep | burger/net/TcpConnection.cc:272-285 | the rest is appended to the buffer and writing enabled |
| TcpConnections.TcpConnection.HandleWrite | burger/net/TcpConnection.cc:186-210 | moves what the socket takes off the buffer; when it is empty, writing is disabled and a pending shutdown carried out |
| TcpConnections.TcpConnection.Shutdown | burger/net/TcpConnection.cc:111-119 | disconnecting, and shut down at once unless bytes are kept |
| TcpConnections.TcpConnection.ShutdownInLoop | burger/net/TcpConnection.cc:290-295 | the write side is shut down unless the channel is writing |
| TcpConnections.TcpConnection.ForceClose | burger/net/TcpConnection.cc:121-126 | disconnecting, and the close queued |
| TcpConnections.TcpConnection.ForceCloseInLoop | burger/net/TcpConnection.cc:297-302 | closes if still open |
| TcpConnections.TcpConnection.HandleClose | burger/net/TcpConnection.cc:212-224 | disconnected, nothing polled, down callback, removal asked for; the assertion holds exactly if the connection was open |
| TcpConnections.TcpConnection.HandleRead | burger/net/TcpConnection.cc:171-184 | bytes to the message callback, the end of the stream closes, an error does neither |
| TcpConnections.TcpConnection.HandleEventWithGuard | burger/net/Channel.cc:76-98 | close, read and write callbacks in this order, for every event; an assertion fails exactly if the connection is found closed twice |
| TcpConnections.TcpConnection.ConnectEstablished | burger/net/TcpConnection.cc:132-141 | connected, reading, up callback |
| TcpConnections.TcpConnection.ConnectDestroyed | burger/net/TcpConnection.cc:143-153 | the channel is removed, with its mask empty as asserted, and is in no kernel set |
| TcpConnections.TcpConnection.Destruct | burger/net/TcpConnection.cc:44-47 | after the destruction no channel of the loop has the descriptor |
| TcpServers.TcpServer.NewConnection | burger/net/TcpServer.cc:50-71 | the new entry displaces no other: its name is new; the descriptor may be that of a destroyed connection |
| TcpServers.TcpServer.RemoveConnectionInLoop | burger/net/TcpServer.cc:77-88 | exactly one entry is erased, the connection's own, and its destruction queued |
| TcpServers.NamesDistinct | burger/net/TcpServer.cc:54 | connection names are different for different numbers |
| TimerFacts.TimersHoldGood | burger/net/TimerQueue.cc:47-89 | on every run: entries stand at their timers' expiration and no timer is in twice; a timer runs only with its time strictly past, again only if it repeats, once a batch; a cancelled one never in a later batch |
| TimerFacts.BatchExactly | burger/net/TimerQueue.cc:60-74 | a batch runs exactly the entries strictly before now, in order, whatever the callbacks do |
| TimerFacts.RestartedIff | burger/net/ITimerQueue.cc:83-92 | a timer of the batch is rearmed exactly if it repeats and was not cancelled during the batch, for an interval after now |
| TimerEffects.RestartsUnlessCancelled | burger/net/ITimerQueue.cc:83-92 | a timer that a batch runs waits afterwards exactly if it repeats and none of the callbacks' calls in the batch cancels it, and then for an interval after now |
| TimerFacts.CancelledGone | burger/net/TimerQueue.cc:47-58 | between batches no cancelled timer is in the set |
| TimerEffects.CancelledStaysOut | burger/net/TimerQueue.cc:47-58 | once a call or a callback of a batch has cancelled a timer, told from the steps alone, it is never in the set nor in a batch again |
| TimerEffects.CancelledNeverRuns | burger/net/TimerQueue.cc:47-58 | after that step no run of the timer is added to the history |
| TimerEffects.CancelMeans | burger/net/TimerQueue.cc:47-58 | a cancelled timer waits no more, every other as before; one that was not waiting is remembered |
| TimerEffects.AddMeans | burger/net/TimerQueue.cc:39-45 | an added timer waits at its time, every other as before; the descriptor is set exactly if it is earlier than all |
| TimerEffects.MicrosMeans | burger/base/Timestamp.h:46-50 | a second is a million microseconds, and a part of one is cut off |
| TimerFacts.AlwaysArmed | burger/net/ITimerQueue.cc:93-101 | between batches the descriptor is set for the first entry's time or earlier |
| TimerFacts.HandleReadKeeps | burger/net/TimerQueue.cc:60-74 | a batch keeps the invariant |
| TimerFacts.ExpiredIff | burger/net/ITimerQueue.cc:69-81 | the entries taken out are exactly those strictly before now |
| TimerQueues.TimerQueue.Insert | burger/net/TimerQueue.cc:76-89 | in order at its expiration, as asserted not there before; reports exactly whether it is the earliest |
| TimerQueues.TimerQueue.AddTimerInLoop | burger/net/TimerQueue.cc:39-45 | inserted, and the descriptor set if it is the earliest |
| TimerQueues.TimerQueue.CancelInLoop | burger/net/TimerQueue.cc:47-58 | erased if in the set, else remembered |
| TimerQueues.TimerQueue.GetExpiredList | burger/net/ITimerQueue.cc:69-81 | exactly the entries strictly before now; the assertion holds exactly if none is due at now |
| TimerQueues.TieExample | burger/net/ITimerQueue.cc:69-76 | a timer due exactly at now fails that assertion |
| TimerQueues.TimerQueue.Reset | burger/net/ITimerQueue.cc:83-101 | repeating timers that were not cancelled are inserted again and the descriptor set |
| TimerQueues.TimerQueue.HandleRead | burger/net/TimerQueue.cc:60-74 | the state after a batch whose callbacks add and cancel timers |
| CopyOnWrite.SnapshotsIsolated | examples/chat/server_threaded_efficient.cc:35-79 | under every interleaving a broadcaster has sent, in order and once each, to exactly the connections current when it took the set; no assertion on the count fails and no freed set is read |
| CopyOnWrite.BroadcastReaches | examples/chat/server_threaded_efficient.cc:63-73 | told from the steps alone: a broadcast goes, in order and once each, to exactly the connections that had joined and not left when it took the set, whatever the others do meanwhile |
| CopyOnWrite.MembersFollow | examples/chat/server_threaded_efficient.cc:35-61 | at every moment of a run the set that a broadcaster would get is what the joins and leaves of the steps so far amount to |
| CopyOnWrite.TakesCurrent | examples/chat/server_threaded_efficient.cc:76-79 | the set taken is that of the moment |
| CopyOnWrite.CopiesIfShared | examples/chat/server_threaded_efficient.cc:39-41 | a change copies the set exactly if a broadcaster has it, with the same members |
| CopyOnWrite.HeldNeverChanges | examples/chat/server_threaded_efficient.cc:35-71 | no step changes a set that a broadcaster holds |
| CopyOnWrite.StepKeeps | examples/chat/server_threaded_efficient.cc:35-79 | reference counts equal the pointers, and the set being changed has the server's pointer only |
| CopyOnWrite.ChatServer.ChangeMembers | examples/chat/server_threaded_efficient.cc:36-44 | copied exactly if shared; the connection that joins is in it and the one that leaves is not, every other as before; the held sets stay as they are |
| CopyOnWrite.ChatServer.GetConnSetPtr | examples/chat/server_threaded_efficient.cc:76-79 | the current set, with one pointer more |
| CopyOnWrite.ChatServer.ReleasePtr | examples/chat/server_threaded_efficient.cc:70 | one pointer less |

## Left out

- System calls, sockets, epoll, eventfd and timerfd themselves: their results are parameters, the kernel's interest set and the eventfd counter are state.
- C++ memory ordering in the queue: each atomic operation is one sequentially consistent step, and moving a payload is copying a value.
- `RingBuffer` prepend, readFd and the searches for line ends: prepend and readFd move an index without folding it.
- The contents of a ring buffer after an operation has lost bytes: only that they differ from those of a byte FIFO; every later call is still covered, from the contents that there are.
- Initial sizes of a ring buffer of eight bytes or less: `% capacity_` is undefined for none, and up to eight no folded index lies in the circle.
- Integer widths other than those of the codec's header, the integers in buffers and `int` in expressions: sizes, indices, times and connection numbers are unbounded.
- EventLoop.NoLostWakeup: quit() and the end of the loop are not modelled, only the eventfd write that quit() makes; the exact case of functions queued before loop() is LostWakeupIff.
- ConfigExpression.EvaluateMeansParse: texts that are not expressions (unbalanced parentheses, unary minus) have no result in the model where the program pops an empty stack.
- Cross-thread calls of send, shutdown and forceClose on a connection: the user's calls are made on the loop's thread.
- writeCompleteCallback and highWaterMarkCallback: they are queued user code, and what they call is any call between events.
- Shared pointers, `Channel::tie` and the lifetime of a connection: an object is there as long as something refers to it.
- What the message callback takes out of the input buffer: HandleRead states what is appended to it.
- TimerFacts.AlwaysArmed: the value handed to the descriptor only, for valid times; the unsigned subtraction for times already past is not modelled.
- A cancel that overtakes an add still queued from another thread: calls of the timer queue are made on the loop's thread.
- CopyOnWrite.SnapshotsIsolated: sending to a connection is a step that records it; decoding and framing are in Codec.
- Coroutines, Processor, CoEpoll, Hook, Scheduler and CoTimerQueue: context switches in assembly and unsynchronised flags.
- MySQL wrappers, logging, protobuf, RPC, the ini reader and the HTTP parser: foreign or generated code.
- CountDownLatch, atomics, StringUtil, Env and the loop pickers: they would only add easy members.
