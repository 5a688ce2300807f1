# SimpleTcp: a verified model

SimpleTcp is a C++ network library: an event loop with timers and TCP connections, an HTTP layer on top of it, and an
asynchronous log server that formats its lines with a vendored copy of the fmt library. This project models the parts
whose correctness rests on long arguments, and proves what they are for.

1. **Big integers and exact decimal output of binary floating-point values** (`Digits.dfy`, `DigitArithmetic.dfy`,
   `DigitCompare.dfy`, `Bigint.dfy`, `Rounding.dfy`, `Boundaries.dfy`, `DragonDigits.dfy`, `DragonSetUp.dfy`,
   `DragonShortest.dfy`, `Dragon.dfy`). The class `Bigint` has the digits and the exponent of the original and its
   methods keep the original's loops, carries and borrows, with the 64-bit bounds proved. Each method is proved against
   the mathematical value `Value()`. On top of these contracts `FormatDragon` is proved to round half to even at any
   number of digits, and, when no number is given, to find the shortest digits that lie within half a unit of the last
   place of the value. Three operations are wrong on some inputs, and the exact condition is proved for each: the
   subtraction when its borrow meets a zero digit (`LosesBorrow`), the division when the comparison puts a number below
   an equal one with more digits (`MistakenForLess`), and the two comparisons when the lengths mislead them (`Misled`,
   `AddMisled`). None of these conditions arises inside `FormatDragon`, except that equal numbers of different length
   hide one boundary of the shortest mode.
2. **Decimal text of integers** (`Decimal.dfy`): two ways of counting digits, the pair-wise printer over an array, and
   the parser with its 32-bit wrap-around, tied together by a round trip.
3. **The log server** (`LogProtocol.dfy`, `LogFlush.dfy`, `LogDestroy.dfy`, `LogServer.dfy`, `LogLifetime.dfy`). A
   step machine with one step for each critical section or unlocked action of the writers and the flush thread, and its
   invariants over every run; and the server itself, which passes buffers over byte arrays between its lists by
   reference. The objects are proved to refine the machine, and run through whole lives: construction, any interleaving
   of writers and flush thread, the stop request, and the join.
4. **The event loop** (`EventLoop.dfy`, `EventLoopEffects.dfy`, `EventLoopExit.dfy`, `EventLoopHalfClose.dfy`,
   `EventLoopObject.dfy`). A step machine for one loop with the threads that queue tasks for it, in which pushing a task
   and writing the wakeup counter are separate steps; what each step means for connections and timers; and the loop
   object with its poller and its wakeup counter, whose assertions are shown never to fail.
5. **Buffers and connections** (`TcpBuffer.dfy`, `TcpConnection.dfy`, `TcpStream.dfy`): the byte queue over an array
   with its two cursors, a connection's handlers over two such queues, and the two byte streams over whole histories.
6. **HTTP framing and headers** (`Http.dfy`, `HttpClean.dfy`, `HttpLines.dfy`, `HttpFraming.dfy`, `HttpPacket.dfy`):
   trimming, printing and parsing of the header block line by line, and cutting a packet into line, headers and body
   (RFC 9112, sections 5 and 6.3).

`Common.dfy` holds the few definitions that several of these share.

System calls, clocks and user callbacks appear as parameters or as nondeterministic steps: what a socket takes or
delivers, which channels a poll reports, when a wait times out, what a callback sends.

Where the code does less than its surroundings expect, the model follows the code and the lemma says exactly when:

- `forceDestroy` is documented as flushing everything. It does so exactly when the flush thread is found waiting, or
  holds the lock but has not tested the stop flag, or is about to take all that is left (which a flush forced just then
  makes it do), or when nothing is left (`LogDestroy.DestroyFilesAllIff`, and on the objects `LogLifetime.Lifetime`).
  `LogProtocol.GuardCanLoseLines` is a run that loses a line, and `LogLifetime.LostLine` the same on a real server.
- `appendToBuffer` works exactly when the data fits or is at least as long as the write position (`AppendSafeIff`);
  otherwise it never returns or cuts the buffer below its contents (`AppendToBuffer`, `AppendFailure`,
  `FailingAppends`).
- `handleWrite` ends write interest after the write-complete callback, so bytes sent by that callback are stranded
  (`HandleWrite`, `StrandedReply`).
- One reported event can run the write handler right after the read handler has closed the connection, although a
  comment says that it cannot (`HandleEvent`, `WriteAfterClose`).
- A queued half-close writes once, and loses what that one write does not take (`ShutdownInLoop`, `LostByHalfClose`).
- `compare` and `add_compare` look at the number of digit positions first. Their answer is the sign of the difference if
  and only if leading zeros do not hide the digits that decide (`RightIff` and `AddRightIff` in `DigitCompare`);
  `ZeroAboveOne` reaches both failures by shifting a zero.
- The shortest digits are shortest among the numbers in the interval, except for a lower boundary that belongs to it and
  that the loop takes for a larger number: then, and only then, fewer digits would do (`Boundaries.TrulyShortestIff`,
  `Dragon.LongerThanNeeded`). When the value rounds up to the next power of ten, which the caller's `exp10` must leave
  room for, the only character written is not a digit (`Dragon.OverflowIff`, `Dragon.OverflowedTen`).
- A request without header lines is refused, or cut inside its body, because the blank line is searched behind the first
  line break (`PrintedIsParsed`, `PrintedWithoutHeaders`, `NoHeadersNoBody`, `BodyTakenForHeaders`).

## Model

| member | source | states |
|---|---|---|
| Bigints.Accumulator.Add | lib/include/fmt/format-inl.h:360-363 | the two-word sum grows by exactly the product while the total fits 128 bits |
| Bigints.Accumulator.ShiftRight32 | lib/include/fmt/format-inl.h:364-369 | the two-word sum becomes its quotient by 2^32 |
| Bigints.Bigint.Assign | lib/include/fmt/format-inl.h:463-471 | the value becomes n, with no leading zero digit when n is positive |
| Bigints.Bigint.RemoveLeadingZeros | lib/include/fmt/format-inl.h:399-403 | the value is kept and the top digit is nonzero unless one digit is left |
| Bigints.Bigint.Multiply32 | lib/include/fmt/format-inl.h:417-426 | the value is multiplied exactly; no 64-bit intermediate overflows |
| Bigints.Bigint.Multiply64 | lib/include/fmt/format-inl.h:428-443 | the same for a 64-bit factor taken in halves |
| Bigints.Bigint.ShiftLeft | lib/include/fmt/format-inl.h:477-490 | the value is multiplied by a power of two of any size |
| DigitArithmetic.ColumnsProduct | lib/include/fmt/format-inl.h:558-582 | the columns of digit products, weighed by position, add up to the product of the two numbers |
| DigitArithmetic.ColumnStep | lib/include/fmt/format-inl.h:565-582 | a column sum with its carry fits 128 bits, and storing its low digit keeps the weighed total |
| Bigints.Bigint.Square | lib/include/fmt/format-inl.h:558-585 | the value becomes its square, for fewer than 2^30 digits |
| Bigints.Bigint.AssignPow10 | lib/include/fmt/format-inl.h:539-556 | the value becomes exactly 10^exponent for every exponent below 2^30 |
| DigitArithmetic.NextBit | lib/include/fmt/format-inl.h:542-555 | the bits of the exponent read so far extend by the one the mask tests |
| Bigints.Bigint.Align | lib/include/fmt/format-inl.h:589-598 | the exponent becomes at most the other's and the value stays |
| Bigints.Bigint.Compare | lib/include/fmt/format-inl.h:498-512 | for any two numbers the number of positions decides first, then the values, and equal values of equal length are ordered by their number of digits |
| Bigints.Bigint.CompareTells | lib/include/fmt/format-inl.h:501-503 | unless the longer number has leading zeros, that is the order of the values |
| DigitCompare.RightIff | lib/include/fmt/format-inl.h:498-512 | the comparison gives the sign of the difference if and only if the leading zeros of the longer number do not hide the digits that decide, and equal numbers of equal length have equally many digits |
| Bigints.AddCompare | lib/include/fmt/format-inl.h:515-536 | for any three numbers: less if c is at least two positions longer than both, more if one of them is longer than c, and otherwise the sign of a + b - c, though the sum is never formed |
| Bigints.AddCompareTells | lib/include/fmt/format-inl.h:515-520 | it is that sign in every case if no number long enough for an early answer has leading zeros |
| DigitCompare.FromTheTopIsRight | lib/include/fmt/format-inl.h:523-536 | the digit loop alone, without the length tests, gives the sign for any digits at all |
| DigitCompare.AddRightIff | lib/include/fmt/format-inl.h:515-536 | the answer is the sign of a + b - c if and only if the digits behind an early answer are not all zeros that hide a different one |
| Bigints.ZeroAboveOne | lib/include/fmt/format-inl.h:501-520 | a zero shifted by 160 bits, which both comparisons put above one |
| DigitArithmetic.HighDecides | lib/include/fmt/format-inl.h:526-534 | once the running difference is negative or above one, the lower digits cannot change the sign |
| DigitArithmetic.AllDecided | lib/include/fmt/format-inl.h:535 | when the digits run out, the running difference is the answer |
| DigitArithmetic.SubtractDigit | lib/include/fmt/format-inl.h:393-397 | the wrapped 64-bit difference splits into the digit and the borrow of exact subtraction |
| Bigints.Bigint.SubtractAligned | lib/include/fmt/format-inl.h:406-415 | the difference is exact if and only if the borrow does not leave the subtrahend into a zero digit |
| DigitArithmetic.SubtractOutcome | lib/include/fmt/format-inl.h:413 | how far off the result is when the borrow is lost |
| DigitArithmetic.BorrowCanBeLost | lib/include/fmt/format-inl.h:413 | an input on which it is lost |
| DigitArithmetic.NoLostBorrow | lib/include/fmt/format-inl.h:413 | with at most one digit above the subtrahend the borrow is never lost |
| DigitArithmetic.OneExtraDigit | lib/include/fmt/format-inl.h:602-613 | a dividend below 2^31 divisors has at most one such digit |
| Bigints.Bigint.DivmodAssign | lib/include/fmt/format-inl.h:602-613 | quotient and remainder are exact, unless the comparison mistakes an equal dividend for less; then nothing changes |
| Bigints.Bigint.NotMistaken | lib/include/fmt/format-inl.h:498-512 | no mistake if the exponent is at most the divisor's or the divisor's lowest digit is nonzero |
| Bigints.Bigint.EqualButMistaken | lib/include/fmt/format-inl.h:510 | two equal numbers of different length, which the comparison puts in order |
| DragonSetUp.SetUp | lib/include/fmt/format-inl.h:2237-2272 | in all three cases the value is numerator / denominator times 10^exp10, lower is the numerator without significand and shift, and upper is half a unit of the significand |
| Boundaries.BoundariesRepresented | lib/include/fmt/format-inl.h:2230-2236 | numerator less lower, and numerator plus upper, stand for the exact boundaries around f * 2^e |
| Boundaries.WithinIsReadBack | lib/include/fmt/format-inl.h:2230-2236 | a decimal number lies in the interval if and only if it is the significand again when it is rounded half to even to the unit of the last place |
| Boundaries.WithinIsReadBackCloser | lib/include/fmt/format-inl.h:2234-2237 | the same with a closer predecessor: in half units below the value, in whole units above it |
| DragonDigits.ExactPowerOfTen | lib/include/fmt/format-inl.h:2239-2250 | f * 2^e with e >= 0 can equal 10^k only if e <= k |
| DragonDigits.NeverMistaken | lib/include/fmt/format-inl.h:2312-2317 | no division of the digit loop is misled by the comparison, including the first one with both exponents nonzero |
| DragonDigits.NextDigit | lib/include/fmt/format-inl.h:2313 | the quotient is one decimal digit and the written digits with the remainder still spell the value |
| Dragon.PropagateCarry | lib/include/fmt/format-inl.h:2321-2327 | carrying keeps the number written; only the first digit can stay overflowed, above zeros |
| Rounding.RoundLastDigit | lib/include/fmt/format-inl.h:2318-2335 | the comparison of twice the remainder, with the parity test, rounds half to even |
| Rounding.RoundsToOne | lib/include/fmt/format-inl.h:2318-2319 | at most one integer is the fraction rounded half to even |
| Rounding.SameFraction | lib/include/fmt/format-inl.h:2272 | equal fractions round alike, so rounding the big-integer ratio rounds the value |
| DragonShortest.Tests | lib/include/fmt/format-inl.h:2281-2283 | the two tests tell whether the remainder is at most the lower margin and whether it reaches the next digit with the upper one; a remainder that equals the lower margin is seen only if both have the same exponent |
| DragonShortest.GoesOn | lib/include/fmt/format-inl.h:2279-2301 | when neither test ends the loop, no number of this many digits lies in the interval |
| DragonShortest.Stops | lib/include/fmt/format-inl.h:2285-2293 | otherwise the digit taken completes a number in the interval, and the one nearest to the value, the even one of two |
| DragonShortest.ShortestDigits | lib/include/fmt/format-inl.h:2275-2302 | the loop ends, with a number in the interval, none in it with fewer digits, and none nearer with as many; the last digit overflows only if it is the first |
| Boundaries.TrulyShortestIff | lib/include/fmt/format-inl.h:2281 | no number of the interval proper has fewer digits, if and only if f is odd, or e is negative, or the first digit's place is not below e in whole big digits, or one digit is enough, or the lower boundary is not a multiple of ten units of the last digit |
| Dragon.LongerThanNeeded | lib/include/fmt/format-inl.h:2281 | 14648438 * 2^32, for which seven digits would do and more are written |
| Dragon.OverflowIff | lib/include/fmt/format-inl.h:2286-2293 | the result is the overflowed digit alone if and only if ten lies in the interval at the first place and nine does not, or is not nearer |
| Dragon.OverflowedTen | lib/include/fmt/format-inl.h:2286-2293 | 96 with its first digit at the place of tens |
| Dragon.FormatDragon | lib/include/fmt/format-inl.h:2225-2337 | the digits times the power of ten left in exp10 are f * 2^e rounded half to even at the requested digit, including all carries and the case of no digits; for a negative count they are the shortest |
| Decimal.TextIsDecimal | lib/include/fmt/format.h:1106-1126 | the specification text of n has the value n, only digits and no leading zero |
| Decimal.CountDigitsFallback | lib/include/fmt/format.h:936-949 | the length of that text, for every number |
| Decimal.LookupCorrect | lib/include/fmt/format.h:963-973 | for every 64-bit n the table entry is that length or one more, and the comparison tells which |
| Decimal.DoCountDigits | lib/include/fmt/format.h:959-974 | the same length as the looping count |
| Decimal.FormatDecimal | lib/include/fmt/format.h:1106-1126 | exactly that text stands before the end position, and nothing else in the array changes |
| Decimal.OverflowTest | lib/include/fmt/core.h:2286-2295 | testing only the last step is enough although the value may have wrapped |
| Decimal.ParseNonnegativeInt | lib/include/fmt/core.h:2276-2296 | the whole run of digits is consumed, and gives its value if it has at most ten digits and fits an int, and the error value otherwise |
| Decimal.DecimalRoundTrip | lib/include/fmt/core.h:2276-2296 | parsing a printed number gives it back up to 2^31 - 1, and the error value above |
| Decimal.LeadingZeros | lib/include/fmt/core.h:2276-2296 | zeros in front of a printed number change nothing while there are at most ten digits in all |
| LogProtocol.StepKeeps | src/base/LogServer.cpp:202-291 | every step of every thread keeps all invariants below |
| LogProtocol.FilesHoldPrefix | src/base/LogServer.cpp:202-288 | in every reachable state the files hold a prefix of the accepted lines and the buffers hold the rest in order |
| LogProtocol.FilesOnlyGrow | src/base/LogServer.cpp:241-279 | no step rewrites or removes a line in the files |
| LogProtocol.MemoryBound | src/base/LogServer.cpp:208-218 | never more than sixteen buffers, each in exactly one place |
| LogProtocol.AllocatesWhenNoneFree | src/base/LogServer.cpp:212-217 | a buffer is made only when none is free |
| LogProtocol.RefusedIff | src/base/LogServer.cpp:205-227 | a line is refused if and only if it does not fit and seven buffers are pending, and then nothing changes |
| LogProtocol.LinePlaced | src/base/LogServer.cpp:205-221 | a line that fits joins the current buffer and changes no list; one that does not, with at most six buffers pending, makes the current buffer the last pending one and is alone in the next |
| LogProtocol.NewFileIff | src/base/LogServer.cpp:270-278 | a new file is begun if and only if the next buffer would bring the last file to the limit, and the buffer's lines end the file it goes to |
| LogProtocol.StopBranchFilesAll | src/base/LogServer.cpp:241-251 | leaving by the stop branch puts every accepted line in the files |
| LogDestroy.LeavesByStopIff | src/base/LogServer.cpp:232-251 | after a stop request the flush thread leaves by its stop branch if and only if the request found it between the test of its guard and the test of the flag |
| LogDestroy.DestroyFilesAllIff | src/base/LogServer.cpp:93-107 | in any run after the stop request, every line accepted before it is in the files at the end if and only if the state of the request was safe, or the thread was about to take buffers and a flush was forced before it did |
| LogDestroy.LeavesOnlyOnRequest | src/base/LogServer.cpp:232-251 | without a stop request the flush thread never leaves |
| LogProtocol.GuardCanLoseLines | src/base/LogServer.cpp:232 | a run in which an accepted line never reaches a file |
| LogProtocol.FilesStayBelowLimit | src/base/LogServer.cpp:270-278 | before the final flush every file stays below its limit, and no buffer overflows |
| LogFlush.PassIsComplete | src/base/LogServer.cpp:254-279 | a pass begun on a timeout or a forced flush ends with every line accepted before it in the files, and any pass with every line that was pending |
| LogFlush.WaitTakes | src/base/LogServer.cpp:237-265 | from the wait on, a pass takes the pending buffers, and the current one if and only if none is pending or a flush was forced; the flush request is used up |
| LogFlush.IdleLinesAreFiled | src/base/LogServer.cpp:237-288 | in any run, a wait that ends with nothing pending or with a flush forced has every line accepted before it in the files when the thread is back at its guard |
| LogFlush.StopIsPrompt | src/base/LogServer.cpp:93-107 | in any run after a stop request the flush thread takes at most eleven more steps, so the join returns |
| LogServers.LogBuffer.Write | src/base/LogBuffer.cpp:8-11 | the buffer's bytes are those of its lines followed by the new one |
| LogServers.LogBuffer.Flush | src/base/LogBuffer.cpp:13-18 | the file gains exactly the lines held, and the buffer is empty |
| LogServers.LogServer.Write | src/base/LogServer.cpp:202-228 | on buffers held by reference, takes the protocol's write step and leaves every other buffer as it was; the line is accepted or seven buffers are pending |
| LogServers.LogServer.TakePending | src/base/LogServer.cpp:254-265 | takes the protocol's swap step, with the current buffer on a timeout or a forced flush; at most one buffer is made |
| LogServers.LogServer.FlushNext | src/base/LogServer.cpp:269-279 | the bytes of one buffer go to the file, or to a new one at the limit, as in the protocol's flush step, and no other buffer changes |
| LogServers.LogServer.ReturnBuffers | src/base/LogServer.cpp:282-288 | returning the buffers one by one is the protocol's return step |
| LogServers.LogServer.TestGuard | src/base/LogServer.cpp:232 | takes the protocol's step from the loop guard, on the server's own flag |
| LogServers.LogServer.EndWait | src/base/LogServer.cpp:236-239 | takes the protocol's step from the wait, and reports a timeout if and only if there is no stop, no flush request and nothing pending |
| LogServers.LogServer.TestStop | src/base/LogServer.cpp:241-252 | takes the protocol's step from the test of the stop flag: the final flush or on to the pass |
| LogServers.LogServer.FlushPass | src/base/LogServer.cpp:254-288 | a whole pass without writers ends at the loop guard with every pending line in the files, and with every accepted one on a timeout or a forced flush |
| LogServers.LogServer.FlushAllAndClose | src/base/LogServer.cpp:241-251 | the loop over the pending buffers is the protocol's stop step, and every accepted line is in the files |
| LogServers.LogServer.RequestStop | src/base/LogServer.cpp:97 | takes the protocol's stop request and keeps the server sound |
| LogServers.LogServer.ForceFlush | src/base/LogServer.cpp:112 | takes the protocol's flush request and keeps the server sound |
| LogServers.LogServer.Guarantees | src/base/LogServer.cpp:202-288 | in every state of the objects the open file's bytes are its lines, the files hold a prefix of the accepted lines, there are at most sixteen buffers, free ones are empty, and the current one is in no list |
| LogLifetime.Run | src/base/LogServer.cpp:202-291 | any interleaving of writers, forced flushes, stop requests and the flush thread, without exactly the steps that are not possible at their time, takes the objects through that run of the protocol |
| LogLifetime.Join | src/base/LogServer.cpp:100-102 | after a stop request the flush thread, alone, comes to its end, and no accepted line changes |
| LogLifetime.Destroy | src/base/LogServer.cpp:93-107 | without writers in the way, the files hold exactly the accepted lines at the end if and only if the server was safe to destroy |
| LogLifetime.Lifetime | src/base/LogServer.cpp:61-107 | from construction through any history, the stop request and any history after it: the lines accepted before the request are in the files if and only if its state was safe or a flush was forced in time |
| LogLifetime.LostLine | src/base/LogServer.cpp:232 | a server that has accepted a line and ends with empty files |
| LogLifetime.IdleRound | src/base/LogServer.cpp:232-288 | one round of the flush thread on a server that nobody uses and that has nothing pending ends with every accepted line in the files |
| LogLifetime.IdleLine | src/base/LogServer.cpp:232-288 | a new server that is given one line and left alone files it |
| EventLoops.StepKeeps | src/net/EventLoop.cpp:115-231 | every step of the loop and of the other threads keeps all invariants below |
| EventLoops.TasksRunInOrder | src/net/EventLoop.cpp:217-231 | executed, batch and pending tasks together are the queued ones in order, so each runs at most once and first come first served |
| EventLoops.BatchIsFixed | src/net/EventLoop.cpp:220-228 | a task queued while a batch runs never joins that batch |
| EventLoops.NoLostWakeup | src/net/EventLoop.cpp:159-163 | whenever the loop polls and a pending task's producer has left the lock, the counter is positive |
| EventLoops.CounterReadSucceeds | src/net/EventFd.cpp:28-34 | the counter is positive whenever it is read, so the read cannot fail |
| EventLoops.DispatchedIsRegistered | src/net/EventLoop.cpp:128-142 | a channel returned by a poll is still registered, and its connection open, when its turn comes |
| EventLoops.ClosedAtMostOnce | src/tcp/TcpConnection.cpp:128-145 | a connection is closed at most once in any run and is gone before the next poll |
| EventLoops.DestroyFindsConnection | src/tcp/TcpServer.cpp:165-176 | the destroy task finds its connection disconnected, in the set, and its channel registered |
| EventLoops.ConnectionLimit | src/tcp/TcpServer.cpp:137-141 | the connection set never exceeds 256 |
| EventLoops.OneshotFiresOnce | src/net/TimerQueue.cpp:40-61 | a one-shot timer that is dispatched has not fired before |
| EventLoopEffects.WakeupEffect | src/net/EventFd.cpp:28-34 | dispatching the wakeup channel, and nothing else, sets the counter back to zero |
| EventLoopEffects.ListenEffect | src/tcp/TcpServer.cpp:137-181 | a client is accepted if and only if there are fewer than 256 connections, as an open connection with a registered channel, both new |
| EventLoopEffects.ConnectionEffect | src/tcp/TcpConnection.cpp:128-145 | an event closes a connection that was open and not closed before, and queues its destruction, or leaves it as it was |
| EventLoopEffects.TimerEffect | src/net/TimerQueue.cpp:40-84 | a timer that is due fires, and queues its removal if and only if it was added as one-shot |
| EventLoopEffects.HalfCloseEffect | src/tcp/TcpConnection.cpp:311-331 | an open connection is half closed if and only if the last write succeeds, and any other stays as it was |
| EventLoopEffects.AddEffect | src/net/TimerQueue.cpp:40-61 | an added timer is in the map with its kind, and registered |
| EventLoopEffects.RemoveEffect | src/net/TimerQueue.cpp:104-121 | a removed timer is in neither any more, and nothing else changes |
| EventLoopEffects.KindIsKept | src/net/TimerQueue.cpp:40-84 | a timer in the map is of the kind its add task was queued with |
| EventLoopEffects.OneshotAtMostOnce | src/net/TimerQueue.cpp:40-51 | what was added as one-shot fires at most once in any run |
| EventLoopEffects.RepeatingIsKept | src/net/TimerQueue.cpp:80-84 | the removal of what was added as repeating is queued only by a caller |
| EventLoops.TimerTasksFindTheirTimer | src/net/TimerQueue.cpp:104-121 | an add task finds its number unused, and a remove task finds its timer unless it was removed before |
| EventLoopHalfClose.TaskFindsConnectionIff | src/net/EventLoop.cpp:217-231 | whatever task runs next, a connection is still in the set if and only if its destruction was not queued before that task |
| EventLoopHalfClose.HalfCloseFindsConnection | src/tcp/TcpConnection.cpp:311-331 | a half-close queued while its connection is open finds it in the set, whatever runs in between: the bare pointer it keeps is good |
| EventLoopExit.NoLostQuit | src/net/EventLoop.cpp:150-157 | a loop asked to quit never blocks once the caller has returned, and leaves only with its batch finished |
| EventLoopExit.NoPollAfterQuit | src/net/EventLoop.cpp:120-146 | after a quit request no run has a further poll, except one that was about to start |
| EventLoopExit.QuitEndsPolling | src/net/EventLoop.cpp:150-157 | the same from the request, whoever makes it |
| EventLoopExit.EveryChannelHasItsTurn | src/net/EventLoop.cpp:128-142 | every channel of a poll is dispatched, in the order reported, before the loop goes on to its tasks |
| EventLoopObjects.EventLoop.QueueInLoop | src/net/EventLoop.cpp:159-163 | takes the push and the wakeup step under one lock; the task is pending and the counter positive |
| EventLoopObjects.EventLoop.QuitLoop | src/net/EventLoop.cpp:150-157 | takes the quit step, and from another thread the wakeup too, so that a polling loop wakes |
| EventLoopObjects.EventLoop.HandleChannel | src/net/EventLoop.cpp:128-142 | takes the protocol's dispatch step; the branch for a removed channel is never taken, the counter read never throws and no channel is added twice |
| EventLoopObjects.EventLoop.DispatchNext | src/net/EventLoop.cpp:128-142 | on the fields: a client joins set and poller while there is room; a connection that closes was not closed before, is marked and has its destroy task pending; a timer fires, and has its removal pending if it was added as one-shot; the wakeup counter is cleared; nothing else changes |
| EventLoopObjects.EventLoop.RunFirst | src/net/EventLoop.cpp:226-228 | takes the protocol's task step, and on the fields: a half-close, a destruction, an added timer with its kind and a removed timer change exactly their own entry |
| EventLoopObjects.EventLoop.DoPendingTasks | src/net/EventLoop.cpp:217-231 | runs exactly the tasks pending at the swap, in order |
| EventLoopObjects.EventLoop.Iterate | src/net/EventLoop.cpp:120-146 | after one iteration without other threads every queued task has run, and no closed connection is left in the set or in the poller |
| EventLoopObjects.AcceptClient | src/tcp/TcpServer.cpp:137-181 | an iteration that accepts a client, on any idle loop with room |
| EventLoopObjects.CloseClient | src/tcp/TcpServer.cpp:165-176 | an iteration in which a connection closes ends with it gone from the set and the poller |
| EventLoopObjects.ServedConnection | src/tcp/TcpServer.cpp:122-182 | a connection from acceptance to destruction on a new loop |
| TcpBuffers.TcpBuffer.Store | src/tcp/TcpBuffer.cpp:94-95 | the bytes copied behind the write cursor extend the contents |
| TcpBuffers.TcpBuffer.ReadFromSocket | src/tcp/TcpBuffer.cpp:44-57 | the contents grow by what was read; room is left, so a read of nothing means nothing arrived |
| TcpBuffers.TcpBuffer.WriteToSocket | src/tcp/TcpBuffer.cpp:78-87 | the socket gets a prefix of the contents and the rest stays |
| TcpBuffers.TcpBuffer.AppendToBuffer | src/tcp/TcpBuffer.cpp:89-97 | the contents grow by the data if and only if it fits or is at least as long as the write position; otherwise the loop changes nothing any more, or the copy runs past the end of a buffer cut below the cursor |
| TcpBuffers.TcpBuffer.Read | src/tcp/TcpBuffer.cpp:100-108 | a view of the first bytes, with no change |
| TcpBuffers.TcpBuffer.Extract | src/tcp/TcpBuffer.cpp:126-137 | the result followed by the new contents is the old contents |
| TcpBuffers.TcpBuffer.UpdateReadPos | src/tcp/TcpBuffer.cpp:165-173 | the contents lose their first bytes, the copied ranges do not overlap, and the cursors keep 2 * readPos <= writePos <= capacity |
| TcpBuffers.CompactionIsPaidFor | src/tcp/TcpBuffer.cpp:165-173 | over any history compaction moves no more bytes than were taken out |
| TcpBuffers.AppendSafeIff | src/tcp/TcpBuffer.cpp:89-97 | the append ends with room for the data if and only if the data fits or is at least as long as the write position |
| TcpBuffers.AppendFailure | src/tcp/TcpBuffer.cpp:91-93 | which failure happens otherwise: no progress ever, or a buffer cut below its write cursor |
| TcpBuffers.AppendCanFail | src/tcp/TcpBuffer.cpp:91-93 | both failures, on sizes that a new buffer can meet |
| TcpBuffers.FailingAppends | src/tcp/TcpBuffer.cpp:91-95 | both failures on new buffers |
| TcpConnections.TcpConnection.EstablishConnect | src/tcp/TcpConnection.cpp:279-287 | the connection reads and is connected, with its channel and both streams as they were |
| TcpConnections.TcpConnection.SendInLoop | src/tcp/TcpConnection.cpp:208-223 | bytes are accepted only while connected, wait in order, and have write interest, if and only if the buffer can take them |
| TcpConnections.TcpConnection.HandleWrite | src/tcp/TcpConnection.cpp:108-124 | the socket gets what one write takes; write interest is right if and only if that write leaves bytes or the callback sends none; a failed write throws |
| TcpConnections.TcpConnection.HandleRead | src/tcp/TcpConnection.cpp:77-105 | the bytes join the received stream; the connection is closed if and only if nothing arrived and there is no socket error |
| TcpConnections.TcpConnection.Extract | src/tcp/TcpConnection.cpp:238-242 | what the user gets is the next part of the received stream |
| TcpConnections.TcpConnection.ShutdownInLoop | src/tcp/TcpConnection.cpp:311-331 | no writing after the half-close; everything accepted was handed over if and only if one write could take all that waited |
| TcpConnections.TcpConnection.HandleEvent | src/net/Channel.cpp:74-91 | what one event does to both streams, and that the write handler runs on a closed connection if and only if the same event reports a write and an end of stream |
| TcpStreams.Run | src/tcp/TcpConnection.cpp:77-331 | over any history of sends, reported events, half-closes, reads and destruction: both streams only grow and lose or reorder nothing, the life cycle only advances, nothing is accepted or handed over once not connected, the receive buffer always has room, and waiting bytes have write interest unless the write-complete callback sends |
| TcpStreams.Lifetime | src/tcp/TcpConnection.cpp:279-331 | the same from construction: what was handed over is a prefix of what was accepted, and all of it when a connected connection wants no write |
| TcpStreams.Destroyed | src/tcp/TcpConnection.cpp:291-308 | after the destruction no history accepts, hands over or receives a byte or brings the channel back |
| TcpStreams.StrandedReply | src/tcp/TcpConnection.cpp:116-123 | a new connection on which bytes sent by the callback wait without write interest |
| TcpStreams.LostByHalfClose | src/tcp/TcpConnection.cpp:320-326 | a new connection whose half-close drops a byte |
| TcpStreams.WriteAfterClose | src/net/Channel.cpp:84-89 | a new connection on which one event closes it and then runs the write handler |
| Http.TrimIsMaximal | include/base/StringHelper.h:25-41 | what is cut off is only spaces, and the slice that is left has none at its ends |
| Http.Strip | include/base/StringHelper.h:25-41 | the loop that moves both ends at once computes that slice |
| Http.PrintHeaders | src/http/HttpResponse.cpp:175-178 | the block is the lines of the headers in the given order |
| Http.ParseHeaders | src/http/HttpRequest.cpp:98-118 | the loop computes what the lines of the block add one after the other |
| Http.HeaderRoundTrip | src/http/HttpRequest.cpp:103-118 | printing a map of clean headers in any order and parsing the block gives the map back |
| HttpClean.ParsedIsClean | src/http/HttpRequest.cpp:103-118 | headers parsed from any block have no colon in a key, no line break and no outer spaces on a value |
| HttpClean.RoundTripIff | src/http/HttpResponse.cpp:175-177 | the round trip gives the map back if and only if all its headers are of that kind |
| HttpClean.ParsePrintParse | src/http/HttpRequest.cpp:103-118 | parsing any block, printing the result and parsing again changes nothing |
| HttpLines.JoinedLines | src/http/HttpRequest.cpp:103-118 | a block is its lines with a break after each, and a rest |
| HttpLines.NoBreakLeft | src/http/HttpRequest.cpp:103-118 | neither the lines nor the rest hold a break |
| HttpLines.ParsedKeys | src/http/HttpRequest.cpp:108-114 | any block gives a header for exactly the keys that its lines name, by the text before their first colon |
| HttpLines.FirstLineWins | src/http/HttpRequest.cpp:108-114 | in any block the first line that names a key gives its value, without outer spaces |
| HttpLines.FoundKeysStay | src/http/HttpRequest.cpp:113 | a header found before keeps its value |
| HttpLines.LineAdds | src/http/HttpRequest.cpp:108-114 | a line adds at most the key it names; a line without a colon adds nothing |
| HttpLines.FirstHeaderWins | src/http/HttpRequest.cpp:103-118 | of printed headers with equal keys the first is parsed |
| HttpLines.PrintedHost | src/http/HttpResponse.cpp:175-178 | what printed headers look like |
| HttpFraming.CutHead | src/http/HttpRequest.cpp:188-216 | the request line and the head are found where the specification has them, or the packet is malformed |
| HttpFraming.OutcomeIff | src/http/HttpRequest.cpp:188-242 | a packet is malformed if and only if one of the two breaks, the request line or the content length is missing or refused, and partial if and only if it is a POST with another length than announced |
| HttpFraming.ParseHttpRequest | src/http/HttpRequest.cpp:188-242 | the cutting positions give the outcome of the framing specification, and each outcome exactly in these cases |
| HttpFraming.AcceptedIsWhole | src/http/HttpRequest.cpp:188-242 | an accepted packet is line, CRLF, headers, CRLF and body, and nothing else |
| HttpFraming.AcceptedBody | src/http/HttpRequest.cpp:226-237 | the body of an accepted POST has the announced length |
| HttpFraming.PostPrefixes | src/http/HttpRequest.cpp:188-242 | a proper prefix of an accepted POST is partial, with the same line and headers, if it holds the head, and malformed otherwise; a longer packet is partial |
| HttpFraming.GetTakesEverything | src/http/HttpRequest.cpp:228-240 | a GET is accepted with whatever follows its head as body |
| HttpPackets.PrintedWithoutHeaders | src/http/HttpRequest.cpp:200-215 | a packet without header lines is malformed if no blank line follows in its body, and otherwise is never accepted with its whole body |
| HttpPackets.NoHeadersNoBody | src/http/HttpRequest.cpp:200-215 | a request line and a blank line alone are malformed |
| HttpPackets.BodyTakenForHeaders | src/http/HttpRequest.cpp:200-216 | a body that begins with a line break has that break taken for the end of the head |
| HttpPackets.PrintedIsParsed | src/http/HttpRequest.cpp:188-242 | a packet put together from a line, printed headers and a body is cut back into exactly these parts if and only if it has a header |

## Left out

- Dragon.FormatDragon: a significand must not lose bits when it is shifted by one or two, and exponents stay below 2^30 in size, where the original's int arithmetic ends. The shortest mode writes into the buffer's memory before it is resized; the buffer's capacity is not modelled.
- Bigints.Bigint.Square: the digit buffer has no capacity limit here; the original asserts 32 digits when a number is destroyed, and its exponent is an int.
- LogProtocol.StepKeeps: a line is nonempty and fits an empty buffer, as write assumes without a check; formatting, dates and the mNeedFlushNow store that races with its reset are not modelled.
- LogProtocol.FilesHoldPrefix: each new log file is a new file; two files created within one second share a name in the original.
- EventLoops.StepKeeps: tasks and handlers do not throw: an exception, such as that of a failed write in the write handler, leaves startLoop, and a run just ends there. Timer numbers are distinct (the original takes them from the clock). A half-close queued for a connection that is already closed may find it destroyed: the step then does nothing, where the original follows a dangling pointer; EventLoopHalfClose.HalfCloseFindsConnection shows that it does not happen to one queued in time.
- EventLoops.NoLostWakeup: the wakeup counter does not saturate.
- EventLoopExit.NoLostQuit: does not cover a quit request made before startLoop, which the first statement of startLoop overwrites.
- EventLoopObjects.EventLoop.HandleChannel: does not hold the lock as an object; the holder is part of the protocol state, and steps of other threads between two methods are those of QueueInLoop and QuitLoop.
- TcpBuffers.TcpBuffer.AppendToBuffer: the model stops where the original spins or runs past its buffer, and says so in the outcome.
- TcpConnections.TcpConnection.SendInLoop: the high-water callback is left out.
- TcpConnections.TcpConnection.HandleWrite: a failed write is reported as an exception that leaves the handler; nothing catches it, so TcpStreams.Run ends with it.
- TcpConnections.TcpConnection.HandleRead: a failed read without a socket error counts as end of stream, as in the original; partial reads are limited only by the room in the buffer. What the message callback sends must fit the send buffer's append, here and in TcpStreams.Run; AppendToBuffer tells what happens otherwise.
- HttpFraming.ParseHttpRequest: the request line parser and the content length lookup are parameters, since they rest on a regular expression, on split and on from_chars.
- Http.PrintHeaders: the properties that generateResponse sets before printing are part of the given headers.
- Bit tests and masks on powers of two are written as arithmetic, and the digit-count table as the runs of its equal entries.
- Sub-loops (maxThreadNum above zero): isInLoopThread only tells that some loop exists on the thread, so confinement across loops does not hold in the code.
- TcpClient and its retries, the epoll file-descriptor map and the sorting of active channels by priority.
- Dragonbox, Grisu, floating-point decoding, compression, address printing, backtraces and the example applications.
- Assertions of the original only log in release builds; here they are preconditions, or flagged outcomes where they can fail.
