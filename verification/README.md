# MuduoZ, modelled and verified

MuduoZ is a small event-driven network library in C++ with an asynchronous logger, a hierarchical timing wheel, a
non-blocking TCP connection, a minimal HTTP server and a bundled HTTP benchmark. This project models the parts of it
that keep state or do real arithmetic, and proves what they guarantee. Check it with `dafny verify dfyconfig.toml`.

**Timing wheel** (`Radix`, `TimerModel`, `TimerProofs`, `TimerRuns`, `TimerWheels`). `TimerWheels.dfy` holds the
wheels and timers as objects updated in place; every method is tied to a function of `TimerModel.dfy` on values.
`TimerRuns.dfy` compares whole runs with an ideal scheduler that only keeps a table of what is due when. A timer of t
ticks armed after n completed calls fires in call `FireAt(n, t)`, counted from 0. That is `60^L * (n / 60^L + t / 60^L)
+ (t % 60) * (1 + 60 + ... + 60^(L-1))`, where L is the position of the leading base-60 digit of t. This is not "now
plus t" in general: insertion ignores the lower cursors, and every lower wheel is given `t % 60`. `Accuracy` states the
error and exactly when it is 0. Cancelling looks only in the slot a timer was armed in, so it can come too late once the
timer has been handed down: `CancelTerms` states exactly when, `CancelTooLate` is a run in which a cancelled timer fires,
and `FiringTimes` gives the firing calls of every timer until a cancellation takes effect, if one does.

**Calendar and time zones** (`Truncation`, `Calendar`, `TimeZone`). Julian day numbers are proved against an
independent calendar made of month lengths, leap years and "the next day"; UTC conversion against floor division; local
time over arbitrary transition tables, with the exact condition under which `fromLocalTime` undoes `toLocalTime`. Before
day -1 the remainder that should be a weekday turns negative on every day but Sundays (`WeekDayRange`, `UtcWeekDay`).
The conversions are proved on unbounded integers; `FitsInt`, `LastFittingDate`, `UtcRange` and `FromUtcRange` state
exactly for which arguments no intermediate value of the source leaves its 32-bit type.

**Asynchronous logger** (`LogModel`, `FixedBuffer`, `AsyncLogging`). `LogModel.dfy` is the interleaving of producers and
backend as atomic steps. `AsyncLogging.dfy` holds the buffers as objects that are moved between pointers and vectors; each
method is proved to be one step. No interleaving dereferences a missing buffer, no message is split, reordered or
duplicated, and what is lost is exactly what was in the third and later buffers of an over-long batch, plus, when the
logger is stopped, what is still in the front buffers (`Stranded`, `LostAtStop`). A message that fills the current buffer
to the last byte is dropped silently (`Accepts`, `DroppedAtBrim`), because one test is `>=` and the other `<`.

**Connection** (`Buffer`, `Channel`, `ConnectionModel`, `Connection`). The byte queue is an array that is compacted in
place or grown. The connection's methods are steps of a state machine whose runs keep bytes in order under arbitrary
partial writes and shut the write side down only after the last byte. `ReadsExact` shows that reading until nothing is
left delivers all the data exactly if at most one call returned any, because every call is given the same two areas.
`Connection.HandleRead` closes the connection on errors as on the end of the stream, since the sum of the bytes read is
never negative; its error branch is taken exactly if bytes were read and no message callback is set.

**HTTP** (`HttpText`, `HttpRequest`, `HttpResponse`, `HttpServer`, `WebBench`, `HttpProofs`). Two printers and one parser:
what the benchmark prints is parsed back to the same method, version, path, query and headers, and a printed response
header block is parsed back to the printed map. The parser reports success for any first line. The CRLF that ends the
headers is left unread and is taken for the first line of the next message, so a connection kept alive does not answer
any later request, in whatever pieces it arrives (`SecondNeverAnswered`). Request and field lines are those of sections 3 and 5 of RFC 9112.

**Integer formatting** (`LogStream`). Digits from a table mirrored around zero, with truncating division, turned around in
place.

## Model

| member | source | states |
|---|---|---|
| TimerWheels.CalculatePosByTicks | muduoZ/net/timer/TimerWheel.cc:21-35 | the loop finds the position and the value of the leading base-60 digit |
| TimerModel.LeadingDigit | muduoZ/net/timer/TimerWheel.cc:21-35 | leading digit and level of a delay as quotient and powers of 60 |
| TimerModel.LevelInRange | muduoZ/net/timer/TimerWheel.cc:111-125 | some wheel can hold a delay or interval exactly if it is below 60^5 |
| TimerModel.ArmSparesCursor | muduoZ/net/timer/TimerWheel.cc:111-125 | re-arming never appends to a slot under a cursor, so draining a slot ends |
| TimerWheels.TimerWheel.AddTimer | muduoZ/net/timer/TimerWheel.cc:38-40 | the timer goes to the back of the slot it has on record, nothing else changes |
| TimerWheels.TimerWheel.AddTimerToLower | muduoZ/net/timer/TimerWheel.cc:42-67 | the timer lands on the first wheel at or below this one that the rest of its delay reaches |
| TimerWheels.TimerWheel.DelTimer | muduoZ/net/timer/TimerWheel.cc:69-71 | all occurrences leave the slot the timer has on record |
| TimerWheels.TimerWheel.Tick | muduoZ/net/timer/TimerWheel.cc:80-82 | the cursor moves one slot on, modulo 60 |
| TimerWheels.TimerWheel.CheckCurSlot | muduoZ/net/timer/TimerWheel.cc:85-95 | the current slot is emptied into the wheels below, front to back |
| TimerWheels.TimerWheel.RunSlot | muduoZ/net/timer/TimerWheel.cc:98-130 | every timer of the current slot is called and, if it repeats, armed again; the slot ends empty |
| TimerWheels.TimerWheel.RunTimer | muduoZ/net/timer/TimerWheel.cc:103-126 | one timer: the level test, the callback and the re-arming |
| TimerWheels.TimerWheel.Rearm | muduoZ/net/timer/TimerWheel.cc:111-125 | a repeating timer is armed with its interval from the present cursors |
| TimerWheels.TimerWheels.constructor | muduoZ/net/timer/TimerWheel.cc:134-147 | five empty wheels, slot widths 60 to 60^5, all cursors 0 |
| TimerWheels.TimerWheels.AddTimer | muduoZ/net/timer/TimerWheel.cc:149-169 | refused exactly above 12960000 whole milliseconds; otherwise the timer is due in the call its delay stands for, a delay of 0 counting as 1, and all others stay due when they were; for intervals below 60^5 |
| TimerWheels.TimerWheels.DelTimer | muduoZ/net/timer/TimerWheel.cc:171-174 | cancelling looks on the wheel of the timer's level and in the slot on record |
| TimerWheels.TimerWheels.CheckWheels | muduoZ/net/timer/TimerWheel.cc:178-180 | cascading from the top wheel down |
| TimerWheels.TimerWheels.MoveCursors | muduoZ/net/timer/TimerWheel.cc:183-186 | cursors carry like an odometer |
| TimerWheels.TimerWheels.Tick | muduoZ/net/timer/TimerWheel.cc:177-187 | one call: cascade, run the bottom slot, then move the cursors |
| TimerProofs.ArmTimes | muduoZ/net/timer/TimerWheel.cc:158-163 | an armed timer sits in the slot that is served for the first time when it must leave its wheel |
| TimerProofs.CascadeTimes | muduoZ/net/timer/TimerWheel.cc:42-67 | a timer handed down lands in the slot that keeps its firing time |
| TimerProofs.CurrentWhenDue | muduoZ/net/timer/TimerWheel.cc:85-95 | a slot comes under the cursor exactly in the call that must drain it |
| TimerProofs.CheckSlotInv | muduoZ/net/timer/TimerWheel.cc:85-95 | cascading one slot loses and duplicates no timer and keeps every timer on time |
| TimerProofs.CheckAllInv | muduoZ/net/timer/TimerWheel.cc:178-180 | so does cascading all wheels, and afterwards nothing is left to hand down in this call |
| TimerProofs.RunSlotInv | muduoZ/net/timer/TimerWheel.cc:98-130 | the bottom slot runs exactly the due timers, and those that repeat are seated again |
| TimerProofs.AdvanceInv | muduoZ/net/timer/TimerWheel.cc:183-186 | moving the cursors keeps all waiting timers on time for the next call |
| TimerProofs.TickInv | muduoZ/net/timer/TimerWheel.cc:177-187 | one call fires exactly the timers due in it, each once |
| TimerProofs.CancelInv | muduoZ/net/timer/TimerWheel.cc:69-71 | cancelling removes a timer exactly if it is still on its first wheel or happens to sit in its recorded slot |
| TimerRuns.CancelTerms | muduoZ/net/timer/TimerWheel.cc:42-71 | the same for a timer not yet fired, by the call it was armed before, its delay and the present call |
| TimerRuns.CancelTooLate | muduoZ/net/timer/TimerWheel.cc:69-71 | a run in which a timer is cancelled, in vain, before it fires |
| TimerProofs.FiresLater | muduoZ/net/timer/TimerWheel.cc:149-169 | every timer fires strictly after the call it was armed before |
| TimerRuns.RunAgrees | muduoZ/net/timer/TimerWheel.cc:149-187 | over every run of arming, cancelling and ticking the wheels fire what the ideal scheduler fires |
| TimerRuns.FiringTimes | muduoZ/net/timer/TimerWheel.cc:21-130 | a timer's callback runs in exactly the calls of the closed form, whatever happens in the run, until the first cancellation that takes effect, if any |
| TimerRuns.Refused | muduoZ/net/timer/TimerWheel.cc:151-155 | a delay above 12960000 changes nothing |
| TimerRuns.LiveFires | muduoZ/net/timer/TimerWheel.cc:98-130 | the firing calls of a live timer in every continuation, repeats included, until a cancellation takes effect |
| TimerRuns.OneShot | muduoZ/net/timer/TimerWheel.cc:106-126 | a one-shot callback runs exactly once if its call has come before a cancellation took effect, and otherwise not |
| TimerRuns.CallbacksCounted | muduoZ/net/timer/TimerWheel.cc:108-108 | a callback has run once for each call that fired its timer |
| TimerRuns.GapIsConstant | muduoZ/net/timer/TimerWheel.cc:111-125 | from its second firing on a repeating timer has a constant gap |
| TimerRuns.GapIsInterval | muduoZ/net/timer/TimerWheel.cc:111-125 | the gap is the interval exactly if the interval is a whole number of slots of its wheel |
| TimerRuns.ShortDelays | muduoZ/net/timer/TimerWheel.cc:158-161 | delays below 60 are exact, delays below 3600 count from the last multiple of 60 |
| TimerRuns.Accuracy | muduoZ/net/timer/TimerWheel.cc:158-161 | the error of any delay, its bounds, and exactly when there is none |
| TimerRuns.OnTimeWhenAligned | muduoZ/net/timer/TimerWheel.cc:43-52 | armed on a boundary, a timer is on time exactly if all digits below its leading one are equal |
| TimerRuns.Odometer | muduoZ/net/timer/TimerWheel.cc:183-186 | after any run wheel i's cursor is the i-th base-60 digit of the number of calls |
| TimerRuns.CursorMoves | muduoZ/net/timer/TimerWheel.cc:80-82 | when a cursor moves, and that all lower ones are then 0 |
| TimerRuns.Conservation | muduoZ/net/timer/TimerWheel.cc:38-67 | after any run each live timer is in exactly one slot, once, on the wheel its level names |
| Calendar.CivilRoundTrip | muduoZ/base/ignore/date.cc:8-30 | every date from 1 March -4800 on comes back from its day number |
| Calendar.JulianRoundTrip | muduoZ/base/ignore/date.cc:8-30 | every day number from that day on is the number of a valid date |
| Calendar.NextDay | muduoZ/base/ignore/date.cc:8-15 | successive dates of the Gregorian calendar have successive numbers |
| Calendar.DatesInOrder | muduoZ/base/ignore/date.h:77-79 | comparing day numbers is comparing dates |
| Calendar.EpochWeekDay | muduoZ/base/ignore/date.h:63-65 | the epoch is a Thursday |
| Calendar.WeekDays | muduoZ/base/ignore/date.h:63-65 | from day -1 on weekdays follow one another |
| Calendar.WeekDayClass | muduoZ/base/ignore/date.h:63-65 | on every day the remainder is the weekday up to a multiple of 7 |
| Calendar.WeekDayRange | muduoZ/base/ignore/date.h:63-65 | exactly on which days it is from 0 to 6: from day -1 on, and before it on Sundays |
| Calendar.NegativeWeekDay | muduoZ/base/ignore/date.h:63-65 | a covered date whose weekday is -2 |
| Calendar.DayOfYear | muduoZ/base/ignore/timeZone.cc:318-322 | the day of the year by day numbers is the one by month lengths |
| Calendar.FitsInt | muduoZ/base/ignore/date.cc:17-30 | exactly for which day numbers every intermediate value of the conversion fits 32 bits |
| Calendar.LastFittingDate | muduoZ/base/ignore/date.cc:8-15 | the same for the conversion of a date: exactly up to 15 December 5874689 |
| TimeZone.FillHMS | muduoZ/base/ignore/timeZone.cc:73-78 | seconds of a day as hour, minute and second |
| TimeZone.ToUtcTime | muduoZ/base/ignore/timeZone.cc:298-324 | truncation and its correction give floored days and the time of day for either sign |
| TimeZone.UtcRoundTrip | muduoZ/base/ignore/timeZone.cc:298-339 | seconds come back from broken-down UTC, which is a valid date and clock time |
| TimeZone.MomentRoundTrip | muduoZ/base/ignore/timeZone.cc:298-339 | a valid date and clock time come back from their seconds, with the weekday of the day number and, if asked for, the day of the year by month lengths, which in the year -4800 is one too low |
| TimeZone.UtcWeekDay | muduoZ/base/ignore/timeZone.cc:298-324 | exactly when the weekday of a UTC time is from 0 to 6 |
| TimeZone.NegativeUtcWeekDay | muduoZ/base/ignore/timeZone.cc:298-324 | a time within the range whose weekday is -2 |
| TimeZone.UtcRange | muduoZ/base/ignore/timeZone.cc:298-324 | exactly for which seconds every intermediate value of `toUtcTime` fits its type |
| TimeZone.FromUtcRange | muduoZ/base/ignore/timeZone.cc:326-339 | exactly up to which moment every intermediate value of `fromUtcTime` does |
| TimeZone.UtcOrder | muduoZ/base/ignore/timeZone.cc:326-339 | seconds are in order exactly if the moments are |
| TimeZone.UtcKeepsOrder | muduoZ/base/ignore/timeZone.cc:298-324 | broken-down times are in order exactly if their seconds are |
| TimeZone.LinkTransitions | muduoZ/base/ignore/timeZone.cc:172-177 | each transition carries the local time at which its period begins |
| TimeZone.LowerBound | muduoZ/base/ignore/timeZone.cc:209-212 | the first transition whose key is not below the sought time |
| TimeZone.FindsPeriod | muduoZ/base/ignore/timeZone.cc:199-230 | the search finds the one period that is in force |
| TimeZone.ToLocalTime | muduoZ/base/ignore/timeZone.cc:253-273 | UTC broken down after adding the offset in force |
| TimeZone.FromLocalTime | muduoZ/base/ignore/timeZone.cc:275-296 | the offset in force by the local clock, with the one-hour trial for daylight saving |
| TimeZone.ClockShows | muduoZ/base/ignore/timeZone.cc:298-324 | hour, minute, second and weekday of any number of seconds, in or out of the range |
| TimeZone.ReadsClock | muduoZ/base/ignore/timeZone.cc:326-339 | clock times and days of the month add up, whatever their values |
| TimeZone.MonthsRoll | muduoZ/base/ignore/timeZone.cc:326-339 | months 13 and 14 and months 0 to -9 count in the neighbouring year |
| TimeZone.LocalShows | muduoZ/base/ignore/timeZone.cc:253-273 | a local time shows the moment shifted by the offset in force, with its weekday and day of the year, and names offset and daylight saving |
| TimeZone.OnlyTheClock | muduoZ/base/ignore/timeZone.cc:275-296 | offset, weekday and day of the year of the argument are not read |
| TimeZone.ReadsLocal | muduoZ/base/ignore/timeZone.cc:275-296 | for any broken-down time: the offset of its period by the local clock comes off, and 3600 more exactly if daylight saving is claimed and the moment found is without it and shows the same hour and minute |
| TimeZone.ReadBack | muduoZ/base/ignore/timeZone.cc:275-296 | what converting there and back yields for any moment, repeated hours included |
| TimeZone.LocalRoundTrip | muduoZ/base/ignore/timeZone.cc:253-296 | exactly at which moments converting there and back is the identity |
| TimeZone.ZoneRoundTrip | muduoZ/base/ignore/timeZone.cc:253-296 | it is the identity at every moment exactly if every backward change is one hour out of daylight saving |
| TimeZone.OrdinaryZones | muduoZ/base/ignore/timeZone.cc:199-296 | so it is for transitions at least two hours apart that go back only by such an hour |
| Fixed.FixedBuffer.Append | muduoZ/base/FixedBuffer.h:21-28 | the message is appended exactly if it is strictly shorter than the room left; otherwise nothing happens, or the narrowed length lets a copy overrun the array, which is reported |
| Fixed.OverrunsWhen | muduoZ/base/FixedBuffer.h:21-28 | exactly which lengths the narrowing lets overrun: from 2^31 on, those cast below the room |
| Fixed.FullBufferOverruns | muduoZ/base/FixedBuffer.h:21-28 | 2^31 bytes pass even when the buffer is full, one byte less does not |
| Fixed.FixedBuffer.AddCurPos | muduoZ/base/FixedBuffer.h:32-32 | bytes written behind the position join the contents |
| Fixed.FixedBuffer.ResetCur | muduoZ/base/FixedBuffer.h:48-48 | the contents become empty |
| LogModel.Accepts | muduoZ/base/AsyncLogging.cc:41-57 | exactly which messages an append accepts |
| LogModel.DroppedAtBrim | muduoZ/base/AsyncLogging.cc:41-57 | a run in which a message that fills the room to the last byte is lost |
| LogModel.FirstAccepted | muduoZ/base/AsyncLogging.cc:41-57 | a new logger takes exactly the messages below 4000000 bytes |
| LogModel.SmallRun | muduoZ/base/AsyncLogging.cc:41-107 | in any run whose messages total less than 4000000 bytes every one is accepted and none is lost |
| LogModel.OneRound | muduoZ/base/AsyncLogging.cc:70-107 | a round of the backend writes up to 25 buffers whole; of more it writes two and loses exactly the others |
| LogModel.InvSafe | muduoZ/base/AsyncLogging.cc:70-107 | in every state of the ownership cycle no step dereferences a missing buffer |
| LogModel.InvKept | muduoZ/base/AsyncLogging.cc:41-107 | every step keeps the ownership cycle |
| LogModel.AppendPending | muduoZ/base/AsyncLogging.cc:41-57 | an append adds exactly the accepted message at the end of the stream |
| LogModel.CutPending | muduoZ/base/AsyncLogging.cc:86-86 | an over-long batch loses exactly the messages of its third and later buffers |
| LogModel.FaithfulKept | muduoZ/base/AsyncLogging.cc:41-107 | every step keeps the stream an in-order subsequence of the accepted messages, the rest being what was dropped |
| LogModel.LogSafety | muduoZ/base/AsyncLogging.cc:41-107 | over all interleavings: all steps safe, nothing split, reordered or duplicated, nothing lost while no batch exceeds 25 |
| LogModel.Stranded | muduoZ/base/AsyncLogging.cc:70-110 | when the backend has ended the output is complete exactly if the front buffers are empty |
| LogModel.LostAtStop | muduoZ/base/AsyncLogging.cc:34-38 | a message appended just before stopping is accepted and never written |
| AsyncLogging.AsyncLogging.constructor | muduoZ/base/AsyncLogging.cc:60-69 | two front and two back buffers, all empty, none shared |
| AsyncLogging.AsyncLogging.Append | muduoZ/base/AsyncLogging.cc:41-57 | one append step on the buffers; ownership stays exclusive |
| AsyncLogging.AsyncLogging.Rotate | muduoZ/base/AsyncLogging.cc:45-53 | the current buffer joins the vector; the spare or a new buffer replaces it |
| AsyncLogging.AsyncLogging.Swap | muduoZ/base/AsyncLogging.cc:71-83 | one swap step: batch taken, spares given back |
| AsyncLogging.AsyncLogging.CutBatch | muduoZ/base/AsyncLogging.cc:86-86 | a batch of more than 25 buffers keeps two |
| AsyncLogging.AsyncLogging.WriteOne | muduoZ/base/AsyncLogging.cc:89-91 | one buffer's bytes are added to the output |
| AsyncLogging.AsyncLogging.RecycleAll | muduoZ/base/AsyncLogging.cc:93-106 | spares are refilled from the batch, which always has enough buffers |
| AsyncLogging.AsyncLogging.Check | muduoZ/base/AsyncLogging.cc:70-70 | the loop goes on while the logger is running |
| AsyncLogging.AsyncLogging.Stop | muduoZ/base/AsyncLogging.cc:34-38 | stopping only clears the flag |
| ByteBuffer.Buffer.MakeSpace | muduoZ/net/tcpServer/Buffer.cc:75-85 | the window survives compaction and growth; a grown array is smaller than window plus twice the request |
| ByteBuffer.Buffer.Append | muduoZ/net/tcpServer/Buffer.cc:18-24 | the window grows by the message at the end |
| ByteBuffer.Buffer.ReadFd | muduoZ/net/tcpServer/Buffer.cc:31-64 | what a sequence of reads leaves in the window, each read starting at the same address |
| ByteBuffer.OneReadReceivable | muduoZ/net/tcpServer/Buffer.cc:31-41 | one call can receive the free part and, if that is below 65536 bytes, 65536 more |
| ByteBuffer.ReadsExact | muduoZ/net/tcpServer/Buffer.cc:33-61 | all received data is delivered, whatever was in memory, exactly if at most one read returned data |
| ByteBuffer.SecondReadOverwrites | muduoZ/net/tcpServer/Buffer.cc:43-61 | two reads of two bytes: the second replaces the first and two stale bytes follow |
| ByteBuffer.Buffer.HaveReadForLen | muduoZ/net/tcpServer/Buffer.h:33-33 | the window loses its first bytes |
| ByteBuffer.Buffer.HaveReadAll | muduoZ/net/tcpServer/Buffer.h:34-34 | the window becomes empty |
| EventChannel.Epoller.UpdateChannel | muduoZ/net/Epoller.cc:31-56 | the kernel's table agrees with the channel again; other descriptors are untouched |
| EventChannel.Channel.EnableWriteEvent | muduoZ/net/Channel.h:45-45 | write interest is on, read interest as before, table in step |
| EventChannel.Channel.DisableWriteEvent | muduoZ/net/Channel.h:47-47 | write interest is off, read interest as before, table in step |
| EventChannel.Channel.DisableAll | muduoZ/net/Channel.h:43-43 | no events are watched any more, the table in step, other descriptors untouched |
| ConnectionModel.StepKeeps | muduoZ/net/tcpServer/Connection.cc:31-174 | every step keeps: interest on while bytes wait, shut down only when none do |
| ConnectionModel.SendDoes | muduoZ/net/tcpServer/Connection.cc:31-97 | when a send is accepted, what goes to the socket and what waits |
| ConnectionModel.ShutDownDoes | muduoZ/net/tcpServer/Connection.cc:45-104 | an open connection stops accepting, and is shut at once exactly if nothing waits |
| ConnectionModel.WriteDoes | muduoZ/net/tcpServer/Connection.cc:135-161 | what is taken goes to the socket, and what happens after the last byte |
| ConnectionModel.CloseDoes | muduoZ/net/tcpServer/Connection.cc:53-57 | closing, and closing by force exactly if connected or disconnecting |
| ConnectionModel.FirstSend | muduoZ/net/tcpServer/Connection.cc:59-97 | from the beginning: established is connected, and the first message goes out as far as it is taken |
| ConnectionModel.WireOrder | muduoZ/net/tcpServer/Connection.cc:69-161 | over all runs the written and waiting bytes are the accepted sends in order |
| ConnectionModel.GracefulShutdown | muduoZ/net/tcpServer/Connection.cc:31-153 | shut down only when all accepted bytes are written, and nothing is written afterwards in any continuation |
| ConnectionModel.Drains | muduoZ/net/tcpServer/Connection.cc:135-153 | writes of any sizes that add up to what waits complete a shutdown |
| Connection.Connection.ConnectEstablished | muduoZ/net/tcpServer/Connection.cc:59-66 | connected, with read interest |
| Connection.Connection.Send | muduoZ/net/tcpServer/Connection.cc:31-35 | a send step; nothing happens unless connected |
| Connection.Connection.SendInLoop | muduoZ/net/tcpServer/Connection.cc:69-97 | direct write, spill of the rest, write interest, and the dropped message on an error |
| Connection.Connection.ShutDown | muduoZ/net/tcpServer/Connection.cc:45-51 | deferred while bytes are waiting |
| Connection.Connection.ShutDownInLoop | muduoZ/net/tcpServer/Connection.cc:99-104 | the write side is shut down unless write interest is on |
| Connection.Connection.HandleRead | muduoZ/net/tcpServer/Connection.cc:115-134 | exactly which branch is taken: delivery if anything was read and a callback is set, closing if nothing was read, the error branch otherwise |
| Connection.Connection.HandleWrite | muduoZ/net/tcpServer/Connection.cc:135-161 | a write step with any partial result, ending with the deferred shutdown |
| Connection.Connection.HandleClose | muduoZ/net/tcpServer/Connection.cc:167-174 | disconnected, no events |
| Connection.Connection.ForceClose | muduoZ/net/tcpServer/Connection.cc:53-57 | closes if connected or disconnecting |
| HttpText.HeaderRoundTrip | muduoZ/net/HttpServer/HttpRequest.cc:33-53 | a printed header block is parsed back to its headers, the empty line staying unread |
| HttpText.FieldBlock | muduoZ/net/HttpServer/HttpRequest.cc:33-53 | any field lines, with or without a space: each is taken in, the rest stays, a line without a colon ends the request |
| HttpText.LastCounts | muduoZ/net/HttpServer/HttpRequest.cc:110-118 | the last value under a name counts |
| HttpText.Words | muduoZ/net/HttpServer/HttpRequest.cc:121-148 | the five methods and two versions that are known, and no other |
| HttpText.TrimExact | muduoZ/net/HttpServer/HttpRequest.cc:113-116 | trimming takes off exactly the outer spaces of a value |
| HttpText.RequestLine | muduoZ/net/HttpServer/HttpRequest.cc:77-108 | a well-formed request line gives method, version, and the target split at its first question mark |
| HttpText.SplitOnce | muduoZ/net/HttpServer/HttpRequest.cc:88-98 | path and query of a target are determined by the first question mark |
| HttpText.LineAccepted | muduoZ/net/HttpServer/HttpRequest.cc:77-145 | a request line is accepted exactly if it is a known method, a target without spaces and a known version |
| HttpText.LineRefused | muduoZ/net/HttpServer/HttpRequest.cc:77-92 | what is filled in for a line without a known method or without a target |
| HttpText.VersionRefused | muduoZ/net/HttpServer/HttpRequest.cc:88-108 | what is filled in for a line whose version is missing or unknown |
| HttpText.MessageRead | muduoZ/net/HttpServer/HttpRequest.cc:18-64 | what follows a first line, accepted or not, and what each other state does |
| HttpRequest.HttpRequest.ParseRequestLine | muduoZ/net/HttpServer/HttpRequest.cc:77-108 | fields are filled in as far as the line can be recognised |
| HttpRequest.HttpRequest.ParseHeader | muduoZ/net/HttpServer/HttpRequest.cc:110-118 | name up to the first colon, trimmed value, a later one replacing an earlier one |
| HttpRequest.HttpRequest.ParseMessage | muduoZ/net/HttpServer/HttpRequest.cc:18-64 | the state loop terminates, consumes what belongs to the message, and succeeds exactly if a request line was expected |
| HttpResponse.HttpResponse.AddToBuffer | muduoZ/net/HttpServer/HttpResponse.cc:14-37 | status line, connection header, the headers in any order that lists each once, empty line, body |
| HttpResponse.StatusLineIs | muduoZ/net/HttpServer/HttpResponse.cc:14-19 | version, code and reason, of the first two at most 13 characters |
| HttpResponse.StatusLineWhole | muduoZ/net/HttpServer/HttpResponse.cc:15-17 | the status line is not clipped exactly if the code has at most three digits |
| WebBench.WebBench.BuildRequest | WebBench/webbench.c:223-333 | the refusal that applies, or the request line, headers and empty line for the adjusted version |
| WebBench.LowestVersion | WebBench/webbench.c:232-235 | the version printed is the lowest that was asked for and that every option can do with |
| WebBench.RefusedFor | WebBench/webbench.c:248-271 | which URLs are refused, and for which reason |
| WebBench.RequestIs | WebBench/webbench.c:237-329 | the whole request, word by word, for a URL in its parts |
| WebBench.WebBench.AddHeaders | WebBench/webbench.c:306-326 | which headers are printed for which options |
| HttpProofs.SchemeIsHttp | WebBench/webbench.c:249-266 | in an accepted URL the part after the scheme begins at the eighth character |
| HttpProofs.HostAndTarget | WebBench/webbench.c:273-291 | host, port and target divide the rest of the URL |
| HttpProofs.RequestRoundTrip | muduoZ/net/HttpServer/HttpRequest.cc:18-144 | the benchmark's request is parsed back to method, version, path, query and headers, only the final CRLF staying unread |
| HttpProofs.Understood | muduoZ/net/HttpServer/HttpRequest.cc:88-107 | such a request is understood exactly if its target has no space |
| HttpProofs.KeptIfAsked | muduoZ/net/HttpServer/HttpServer.cc:46-50 | the server keeps the connection exactly for version 1.1 with keep-alive |
| HttpProofs.KeptWhen | muduoZ/net/HttpServer/HttpServer.cc:46-50 | exactly which requests keep the connection open |
| HttpProofs.ResponseRoundTrip | muduoZ/net/HttpServer/HttpResponse.cc:21-36 | the response's header block is parsed back to the printed map and the connection header |
| HttpServer.OnMessage | muduoZ/net/HttpServer/HttpServer.cc:33-65 | parser, answer, connection and request object after each call |
| HttpProofs.Answered | muduoZ/net/HttpServer/HttpServer.cc:33-65 | any message on an open connection: the bytes of the answer or of the refusal, if the write does not fail, the next state, and what is left |
| HttpProofs.Served | muduoZ/net/HttpServer/HttpServer.cc:33-65 | one request is answered with these very bytes, unless the write fails, its final CRLF is left, and the connection stays open exactly if that was asked for |
| HttpProofs.LeftoverStalls | muduoZ/net/HttpServer/HttpRequest.cc:43-48 | the CRLF that is left is taken for the next request line, and nothing is answered |
| HttpProofs.ThenRefused | muduoZ/net/HttpServer/HttpServer.cc:35-39 | the message after that is refused with `HTTP/1.1` alone, unless the write fails, and the connection shut down |
| HttpProofs.SecondNeverAnswered | muduoZ/net/HttpServer/HttpServer.cc:33-65 | over all continuations of a kept connection no second request is answered; at most the start of a refusal is sent, and from the second arrival on the connection is not open |
| LogStream.MirroredDigit | muduoZ/base/LogStream.cc:7-8 | the mirrored table gives the last digit for either sign |
| LogStream.WriteDigits | muduoZ/base/LogStream.cc:14-21 | the loop writes the digits of the absolute value, last one first |
| LogStream.ReverseRange | muduoZ/base/LogStream.cc:25-25 | a stretch of the array is turned around in place, the rest untouched |
| LogStream.Convert | muduoZ/base/LogStream.cc:13-27 | the decimal text and its terminator, and nothing else, are written |
| LogStream.LogStream.FormatInteger | muduoZ/base/LogStream.cc:30-36 | a number is added whole or, with less than 32 bytes of room, not at all |
| LogStream.DecimalReads | muduoZ/base/LogStream.cc:13-27 | the text is canonical and reads back as the number |
| LogStream.CanonicalIsDecimal | muduoZ/base/LogStream.cc:13-27 | every canonical text is the text of the number it reads as |
| LogStream.DecimalInjective | muduoZ/base/LogStream.cc:13-27 | different numbers have different texts |
| LogStream.NaturalLength | muduoZ/base/LogStream.cc:17-21 | exactly how many digits a number takes |
| LogStream.DecimalFits | muduoZ/base/LogStream.h:48-48 | with its terminator any 64-bit value takes at most 21 bytes, so the guard of 32 suffices |
| LogStream.DecimalWidest | muduoZ/base/LogStream.cc:13-27 | the smallest signed and the largest unsigned 64-bit value take exactly that many |

## Left out

- ByteBuffer.Buffer.ReadFd: does not cover a read that overflows the free part of the buffer together with other reads, because the areas then point outside the window or into freed storage.
- TimerWheels.TimerWheels.AddTimer: takes the current time as a parameter and requires an interval below 60^5 (`LevelInRange`), because a longer one indexes a wheel that does not exist; an expiration in the past counts by its distance, as in the source.
- TimerWheels.TimerWheels.Tick: callbacks do not arm or cancel timers while a slot is being run, and calls from other threads come between ticks.
- TimerWheels.TimerWheel.AddTimerToLower: the two branches of the source that do the same are written once.
- TimeZone.UtcRoundTrip: uses unbounded integers; `UtcRange` and `FromUtcRange` give the exact 32-bit ranges. Validity does not include the weekday, for which `UtcWeekDay` is exact.
- Fixed.FixedBuffer.Append: what an overrun writes behind the array is not modelled; the model leaves the buffer alone and reports it.
- Fixed.FixedBuffer.AddCurPos: requires the bytes to be within the array, because the source moves the position without a test.
- LogModel.Accepts: compares lengths as they are; from 2^31 bytes on the source's narrowing lets a message through (`OverrunsWhen`).
- ByteBuffer.ReadsExact: has the same limits as `ReadFd`.
- ByteBuffer.Buffer.HaveReadForLen: requires the bytes to be readable, because the source moves the index without a test.
- TimeZone.ToLocalTime: uses the file's own UTC conversion for the C library's, and leaves out the zone abbreviation.
- TimeZone.LinkTransitions: the zone file is taken as already read into its tables.
- AsyncLogging.AsyncLogging.constructor: buffer pointers are not null between steps where the source never leaves them null; waiting with a time limit, notification, files and rolling are not modelled.
- Connection.Connection.Send: only calls from the loop thread, each atomic; a call from another thread can overtake queued sends. Callbacks to the user are not run, and the socket's answers are parameters.
- EventChannel.Epoller.UpdateChannel: that closing a descriptor removes it from the kernel's table is not modelled.
- HttpRequest.HttpRequest.ParseMessage: requires the whole first line to be there and no question mark behind the target, because the source then reads or copies beyond its range.
- HttpRequest.HttpRequest.ParseRequestLine: requires no question mark behind the target, for the same reason.
- HttpText.LineAccepted: likewise.
- HttpServer.OnMessage: requires what `ParseMessage` does; the refusal text is cut to 8 bytes, the size of a pointer on a 64-bit system, as the source sends it.
- HttpResponse.HttpResponse.AddToBuffer: the order of printing is any enumeration of the map, of which the source's is one.
- WebBench.WebBench.BuildRequest: the port number, messages to the terminal and the limits of the fixed arrays for host and request; the fork, pipe and alarm parts of the benchmark.
- Epoll waiting, event dispatch, threads, the queue of pending functions, acceptor, server and sockets: plumbing around the modelled parts.
- Floating-point formatting, time stamps as text and log file naming: they rest on library formatting.
- HttpProofs.SecondNeverAnswered: an arrival of bytes in the middle of a first line is excluded, as for `ParseMessage`.
- Request bodies and pipelined requests: the parser does not support them.
