# Verified model of a pulse controller

The repository drives an FPGA that plays timed pulses: TTL levels, DDS settings, DAC values and a clock output.
The FPGA is fed one stream of word pairs and works through it in order, so a word takes effect when the words
before it have run out. This project models the parts where that is delicate, and proves what they keep.

**Programs and requests in one stream.** A program's words and the words of queued requests from other threads
go to the same stream. While a program waits, its runner lets requests in and shortens the wait by their time.
`Fpga` is the stream, an append-only log with a duration for each word. `Semantics` is what a program means with no
requests at all. `Runner` is the runner of instruction lists, and its main result is that for every program, every
schedule of the other threads and every start state, the pulses come out as `Semantics` says, with their times and
contents. `Tracking` states what such a program does to phases, TTL lines, time and request opportunities;
`Builder` connects it to the encoders and the time the builder counts; `ByteCode` is the second runner, which plays
against a clock, and `Scores` what it plays; `LongPulses` holds the commands longer than one word.

**The controller's threads.** `Protocol` is a step system: requesters, the reader, the background writer and external
holders of the lock, with three queues and two wrapping counters, one of which lags the real traffic.
`ProtocolInvariant`, `ProtocolSafety` and `ProtocolRuns` prove the invariants and what follows over every run;
`ProtocolProgress` proves that no run gets stuck, and `ProtocolFairness` that in every endless run whose threads go on when
they can everything gets completed. `Controller`
is the same controller as the thread holding the lock sees it between two of its calls: a class whose methods
write, read, push and notify. `Composite` is about commands made of several.

**The ring buffer** behind the queues is `Fifo`: masked positions, growth in place, bulk copies in one or two
stretches. Every method is proved against the plain sequence of its contents.

**Text.** `Percent` and `MapFile` are percent-encoding (sections 2.1 and 2.3 of RFC 3986), the dump of a map,
and its file format.

Each function that a specification is stated with is also pinned down by numbers of its own: words, fields, limits and file
bytes (`SetWords`, `CallWords`, `ShortWaitServes`, `SavedLine` and the like).

`Bits` has the bitwise operations of the source's unsigned words as recursive functions on natural numbers, with the
facts that masks and shifts rest on; `u8` to `u64` are subset types and wrap-around is written out. `Common` and
`Text` hold small shared definitions. `dafny verify dfyconfig.toml` checks the whole project.

## Where the code does not keep what one would expect

The model follows the code. For each of these a lemma or method gives the exact condition.

- `ByteCodeRunner::wait` subtracts the time of the requests it wrote from the remaining wait without looking whether
  that much is left (lib/pulser/instruction.cpp:269-274). The unsigned remainder then wraps, and the wait takes 2^64 cycles
  more. `Wait` says what happens on every run, `wraps` counting how often. `WrapsExactly` gives the condition: some requests
  make a wait wrap exactly if it may serve requests, that is if the flag is set, it lasts at least 2000 cycles, and at the
  first reading of the clock the sequence is ahead or the wait is longer than the wrapped least time covers. It runs the
  runner in such surroundings. No wait wraps while no requests are pending, and a lagging sequence serves nobody in a wait
  of up to 2^64 / 20 (`LagServesNobody`). `BatchFits` says that 50 cycles left make one call safe.
- The least time to write ahead is a difference taken in the wrong direction and wraps
  (lib/pulser/instruction.cpp:251), so a lagging sequence writes any realistic wait whole: `MinSeqTWraps`. No time is lost.
- After the release the runner's own time leads the emitted time by 1000, because line 263 and the call on line 264 both
  add it: `Accounts`, in the contract of `RunAll`.
- A wait of 2^56 cycles or more, or a TTL time of 64 or more, does not survive encoding, while the builder still counts it in full:
  `WaitRoundTrip`, `WaitTimeExact`, `TtlAllRoundTrip`, `TtlRoundTrip`, `CallRoundTrip`.
- A command encodes any channel and register address, and a large one changes the opcode and with it the time the
  FPGA takes: `CommandTakesItsLength`.
- A composite command with more than 15 results waits for space for ever, with the lock held (lib/pulser/controller.h:243, 408-418).
  `CommandOf` is a run to that state; `NothingIsStuck` and `CompletesExactly` show that this is the only way for a
  request to remain unanswered.
- A bulk push of no elements into the ring buffer copies out of bounds unless the write position is 0: `EmptyPushOverruns`.
- The ring buffer's first capacity comes from a 32-bit shift, which overflows for sizes from 2^31 up: `ShiftFits`.
- `url_decode` uses an uninitialised number when an escape holds none (molecube/saveloadmap.cpp:144-145). `Decoded` is then
  `None`, as for a lone percent sign (`UndefinedExample`); `DefinedExactly` and `HoldsNumber` say for which strings it is not.
- The map file has no escapes: entries with `;` or NUL in them, or `}` in their name, do not come back: `RoundTripExactly`.

Two comments of the source differ from its code, and the model follows the code: the test on
lib/pulser/instruction.cpp:231 skips requests when the flag named for short sequences is *not* set, against the comment inside;
and lib/pulser/controller.cpp:141 gives the request length as 500us, where requests last at most 50 cycles.

## Model

| member | source | states |
|---|---|---|
| Commands.CommandTakesItsLength | lib/pulser/commands.h:73-305 | for all parameters a one-word command occupies the FPGA for exactly the length it declares, at most 50 cycles, if and only if its channel and register fields leave the opcode alone; it then is no wait |
| Commands.DdsWord | lib/pulser/commands.h:125-130 | a DDS word keeps its opcode and its time if and only if nothing is put above bit 28 |
| Commands.SetWords | lib/pulser/commands.h:132-149 | the control words and operands of the register writes as numbers, for channels below 32 and any address |
| Commands.GetWords | lib/pulser/commands.h:277-305 | the control words and operands of the register reads as numbers, and that they have a result |
| Commands.ChannelWords | lib/pulser/commands.h:222-275 | the control words and operands of the frequency, reset and selection commands as numbers |
| Commands.OtherWords | lib/pulser/commands.h:69-220 | the control words and operands of the clock, SPI, timing-check and loop-back commands as numbers, and which of them has a result |
| Commands.WordTimes | lib/pulser/commands.h:69-220 | the time of a word by its top four bits, as numbers |
| Semantics.CheckedNumber | lib/pulser/instruction.h:33 | asking for the timing check sets bit 27 and changes nothing else |
| Bits.OrBits | lib/pulser/instruction.cpp:17 | an or of words works on each bit |
| Commands.FlagsKeepOpcode | lib/pulser/instruction.cpp:14-19 | adding the timing-check flag to any word changes neither opcode, time field nor duration |
| Commands.WaitWord | lib/pulser/instruction.cpp:62 | a time below 2^24 put into a wait word is the time the FPGA waits |
| Fpga.Appended | lib/pulser/driver.h:82-87 | a word written to the stream starts when all earlier words have run, and adds its duration |
| Fpga.TotalLengthBound | lib/pulser/controller.cpp:140-146 | a batch of requests takes at most 50 cycles each |
| Fpga.ReturningConcat | lib/pulser/controller.cpp:166-169 | picking out the requests with a result keeps their order |
| Controller.AddAllRoutes | lib/pulser/controller.cpp:164-184 | over a batch, result-returning requests go in order to the result queue, the others in order to the notify queue or straight to completion, as the notify flag says |
| Controller.AddAllCounts | lib/pulser/controller.cpp:164-184 | no request of a batch is lost or duplicated on the way to its place |
| Controller.ConsistentAfterPush | lib/pulser/controller.h:298-306 | pushing requests keeps order, conservation and the counter relation |
| Controller.ConsistentAfterReading | lib/pulser/controller.cpp:57-91 | completing the n oldest awaited requests and adding n to the read counter keeps order, conservation and the counter relation |
| Controller.ConsistentAfterNotifying | lib/pulser/controller.cpp:97-106 | completing the oldest notifications keeps order, conservation and the counter relation |
| Controller.ConsistentAfterWriting | lib/pulser/controller.cpp:147-195 | writing a batch that fits and counting its results keeps order, conservation and the counter relation |
| Controller.CounterRead | lib/pulser/controller.cpp:78-79 | reading lowers the wrapped difference of the counters by exactly the number read, wherever they wrapped to |
| Controller.CounterWritten | lib/pulser/controller.cpp:186-187 | counting written requests raises the wrapped difference by exactly their number |
| Controller.SignedSpace | lib/pulser/controller.h:400-406 | the signed space computed from wrapped counters is 15 minus the true number outstanding |
| Controller.Controller.constructor | lib/pulser/controller.h:256-273 | a new controller is empty and consistent |
| Controller.Controller.ResBuffSpace | lib/pulser/controller.h:400-406 | the space is 15 minus the length of the result queue |
| Controller.Controller.ReleaseHold | lib/pulser/driver.h:101-104 | the hold is released and counted |
| Controller.Controller.ShortPulse | lib/pulser/driver.h:82-87 | one program word is appended at the time all earlier words end, and no request is sent |
| Controller.Controller.PushRequests | lib/pulser/controller.h:298-306 | requests are queued in order behind those waiting |
| Controller.Controller.ReadResults | lib/pulser/controller.cpp:57-91 | exactly the oldest awaited requests are completed, in order |
| Controller.Controller.DumpNotifyQueue | lib/pulser/controller.cpp:97-106 | the oldest requests left for notification, at most 32, are completed in order |
| Controller.Controller.OtherThreads | lib/pulser/controller.cpp:57-106 | one turn of the other threads: pushes at the end of the queue, the oldest results and notifications completed, nothing lost |
| Controller.Controller.WriteOne | lib/pulser/controller.cpp:165-183 | one request's control word with the flags, and its operand, are appended for its length, and the request goes to its place |
| Controller.Controller.WriteAll | lib/pulser/controller.cpp:162-184 | exactly the words of the batch are appended, in order and with the flags; the total length and the number of results are returned, and no program pulse moves |
| Controller.Controller.PopBatch | lib/pulser/controller.cpp:150-161 | the batch is the front of the queue, as long as the limit, the space and the queue allow, and fits the 15-entry array |
| Controller.BatchStops | lib/pulser/controller.cpp:150-161 | a call stops only at its limit, at 15 results outstanding, or at the end of the queue |
| Controller.AddOne | lib/pulser/controller.cpp:166-183 | where a single request goes |
| Controller.Controller.WriteRequests | lib/pulser/controller.cpp:147-195 | the batch is the front of the queue, limited by the call and by the room for results; exactly its words with the flags are appended; where each request goes, and a returned time equal to what the stream grew by; program pulses untouched; consistency kept |
| Instructions.WaitRoundTrip | lib/pulser/instruction.h:103-110 | a wait is decoded to its length if and only if it is below 2^56 |
| Instructions.SetPhaseRoundTrip | lib/pulser/instruction.h:66-73 | channel and phase survive encoding |
| Instructions.ShiftPhaseRoundTrip | lib/pulser/instruction.h:74-81 | channel and shift survive encoding |
| Instructions.ResetRoundTrip | lib/pulser/instruction.h:94-100 | the channel survives encoding |
| Instructions.TtlAllRoundTrip | lib/pulser/instruction.h:111-118 | value and time survive encoding if and only if the time is below 64 |
| Instructions.TtlRoundTrip | lib/pulser/instruction.h:119-126 | line, level and time survive encoding if and only if the time is below 64 |
| Instructions.CommandRoundTrip | lib/pulser/instruction.h:23-27 | a plain command is never taken for a meta instruction |
| Instructions.WaitNumber | lib/pulser/instruction.h:103-110 | the instruction of a wait below 2^56 as numbers |
| Instructions.PhaseNumbers | lib/pulser/instruction.h:66-100 | the instructions of phases and resets as numbers |
| Instructions.TtlNumbers | lib/pulser/instruction.h:111-126 | the instructions of TTL changes with times below 64 as numbers |
| Instructions.OtherKinds | lib/pulser/instruction.cpp:116-138 | meta instructions of any other kind are ignored |
| Runner.WaitNumber | lib/pulser/instruction.cpp:46-48 | the wait word as a number, with or without the timing check |
| Runner.ShortWait | lib/pulser/instruction.cpp:46-48 | exactly that word is appended with operand 0, takes its time and makes no pulse |
| Runner.CheckedShortPulse | lib/pulser/instruction.cpp:14-19 | a word with the timing check added takes effect now, for its own duration |
| Runner.OldestWritten | lib/pulser/controller.cpp:147-195 | when a call may write at all and there is room for a result, the oldest queued request is the next one written |
| Runner.LetRequestsIn | lib/pulser/instruction.cpp:56 | whatever other threads did before, at most 50 cycles per allowed request pass, no pulse moves, every request is where one call leaves it, and exactly the batch's words are appended with the flags |
| Runner.RunWait | lib/pulser/instruction.cpp:37-89 | for every t the stream grows by exactly t, every word has the timing check, and no pulse moves; requests get in exactly at an opportunity, as many as the source allows and without notifying in short waits; the hold is released at the first opportunity, in a long wait at the first that writes a request; no subtraction underflows |
| Runner.RunLongWait | lib/pulser/instruction.cpp:65-88 | for every t from 16000 up the loop ends after t exactly, with t / 8000 - 1 opportunities of 8 requests each, which are notified at once |
| Runner.ShortWaitServes | lib/pulser/instruction.cpp:46-64 | in numbers: from 1024 on, or from 50 on with more than 8192 in all, a short wait writes as many requests as (t - 50) / 256 + 1, the room and the queue allow, and notifies nobody; any other writes none |
| Runner.LongWaitServes | lib/pulser/instruction.cpp:65-88 | in numbers: a long wait has t / 8000 - 1 opportunities, and each writes as many requests as 8, the room and the queue allow, and leaves no notification to the reader |
| Runner.InstMask | lib/pulser/instruction.cpp:147 | the mask isolates the opcode |
| Runner.MetaInstMask | lib/pulser/instruction.cpp:116 | the mask isolates the kind of a meta instruction |
| Runner.LowMasks | lib/pulser/instruction.h:45-46 | the content masks are remainders |
| Runner.CombTimeValue | lib/pulser/instruction.cpp:106-110 | the two halves of a wait time are joined without overlap and fit 64 bits |
| Runner.PhaseWraps | lib/pulser/instruction.cpp:126-130 | shifting with all 32 control bits and truncating adds the phase modulo a turn |
| Runner.MetaByMasks | lib/pulser/instruction.cpp:91-139 | the runner's masks and shifts read every meta word as the arithmetic decoder does |
| Runner.RunCommand | lib/pulser/instruction.cpp:21-27 | a command takes effect now and lasts its declared length |
| Runner.RunDdsSetPhase | lib/pulser/instruction.cpp:29-35 | the phase is recorded and sent, as the reference machine does |
| Runner.RunDdsReset | lib/pulser/instruction.cpp:131-134 | the phase becomes 0 and the reset is sent, as the reference machine does |
| Runner.RunTtlMeta | lib/pulser/instruction.cpp:91-104 | the lines are updated by all or by one, and all of them sent, as the reference machine does |
| Runner.RunMetaInstruction | lib/pulser/instruction.cpp:112-139 | one meta instruction does what its decoded meaning says, with any requests in between |
| Runner.RunInstruction | lib/pulser/instruction.cpp:141-152 | one instruction does what its decoded meaning says, with any requests in between |
| Runner.RunInstructionList | lib/pulser/instruction.cpp:154-165 | the main result: phases, lines, time and all pulses of a whole program are those of the request-free machine; every word has the timing check but the last, which is the wait word of Min |
| Tracking.StepTime | lib/pulser/instruction.cpp:112-152 | an instruction takes its time and adds to the pulses without changing those before |
| Tracking.StepPhase | lib/pulser/instruction.cpp:122-134 | an instruction sets, shifts or leaves each channel's phase |
| Tracking.StepLine | lib/pulser/instruction.cpp:91-103 | an instruction sets or leaves each TTL line |
| Tracking.RunTime | lib/pulser/instruction.cpp:154-165 | a program takes the sum of its instructions' times |
| Tracking.PhaseTracked | lib/pulser/instruction.cpp:122-134 | after any program a channel's phase is the last value set (0 after a reset, else the initial one) plus all later shifts, modulo 2^16 |
| Tracking.PhaseSent | lib/pulser/instruction.cpp:29-35 | every phase word, as a number for its channel, carries the tracked phase and comes at the sum of the times before it |
| Tracking.ResetSent | lib/pulser/instruction.cpp:131-134 | every reset is sent as the reset word of its channel, as a number, at the sum of the times before it |
| Tracking.PlainSent | lib/pulser/instruction.cpp:149-151 | every plain command is sent with its own control word, bit 27 set, and its own operand, at the sum of the times before it |
| Tracking.PulseCount | lib/pulser/instruction.cpp:154-165 | a program makes one pulse for each instruction that is neither a wait nor ignored, and no others |
| Tracking.LineTracked | lib/pulser/instruction.cpp:91-103 | a line is at the level of the last instruction that touched it |
| Tracking.LineSent | lib/pulser/instruction.cpp:91-104 | every TTL word has its time and bit 27 as control word, carries the tracked level of every line, and comes at the sum of the times before it |
| Tracking.QuietTime | lib/pulser/instruction.cpp:46-65 | over any series of waits the accumulated wait time never exceeds 8192, and without an opportunity equals the total of the waits that count |
| Tracking.RequestsGetIn | lib/pulser/instruction.cpp:46-65 | any series of waits that count for more than 8192 cycles contains an opportunity for requests |
| Scores.PreservedLines | lib/pulser/instruction.cpp:300-302 | exactly the lines that are up and not under the mask are preserved |
| Scores.TtlSounds | lib/pulser/instruction.cpp:176-189 | the pulse of a TTL call has every line up that is set or preserved, and holds it for t, or 100 before a wait |
| Scores.CommandSounds | lib/pulser/instruction.cpp:190-209 | the pulses of frequency, amplitude, DAC and clock calls as numbers, and their times 50, 50, 45 and 5 |
| Scores.PlayAllTotals | lib/pulser/instruction.cpp:304-305 | a sequence takes the total of its calls' times and makes one pulse for each call but delays |
| Scores.EachSounds | lib/pulser/instruction.cpp:176-209 | the pulse of each call comes behind those of the calls before it, at the total of their times |
| ByteCode.MinSeqTWraps | lib/pulser/instruction.cpp:250-255 | while the sequence lags, the wrapped difference makes the least time larger than a tenth of the lag, and any wait up to 2^64 / 20 is written whole |
| ByteCode.MinSeqTNumber | lib/pulser/instruction.cpp:251 | the least time is a tenth of the wrapped difference, rounded down, but at least 10000 |
| ByteCode.MaxRequestsNumber | lib/pulser/instruction.cpp:269 | the limit is one request for each started 1000 cycles, and 8 from 7000 on |
| ByteCode.BatchFits | lib/pulser/instruction.cpp:269-274 | every batch that may be written fits the remaining time if and only if at least 50 cycles remain |
| ByteCode.LagServesNobody | lib/pulser/instruction.cpp:250-255 | a sequence that lags by less than about 2^63 gets to serve no requests in a wait of up to 2^64 / 20 |
| ByteCode.CatchesUp | lib/pulser/instruction.cpp:250-257 | one wrapped least time makes up for any lag below 2^63 |
| ByteCode.Serves | lib/pulser/instruction.cpp:269-274 | every batch that the source's limit allows leaves the true remainder, or wraps it, and that only with fewer than 50 cycles left |
| ByteCode.ServedPending | lib/pulser/instruction.cpp:269-274 | each batch that takes time uses up at least one pending request |
| ByteCode.ServedSingle | lib/pulser/instruction.cpp:269-274 | a single request of 50 cycles is served at its turn and leaves the queue empty |
| ByteCode.AfterAfter | lib/pulser/instruction.cpp:242-280 | the accounts of two stretches of a wait add up, with one release between them |
| ByteCode.PlayedAccounts | lib/pulser/instruction.cpp:176-211 | a pulse and the wait after it are accounted for, with one release at most |
| ByteCode.ByteCodeRunner.constructor | lib/pulser/instruction.cpp:170-175 | a new runner has not released the hold, has played nothing, and starts at the given real time and lead |
| ByteCode.ByteCodeRunner.GetCoarseTime | lib/pulser/instruction.cpp:245 | a reading moves the clock as scheduled, and at least one unit once the schedule has ended |
| ByteCode.ByteCodeRunner.OutputWait | lib/pulser/instruction.cpp:216-230 | the pieces sum to t, each is a wait word with the timing check and a time that fits 24 bits, and none is shorter than the smaller of t and 101 |
| ByteCode.ByteCodeRunner.WaitAtOnce | lib/pulser/instruction.cpp:236-241 | a short wait takes its time in both accounts |
| ByteCode.ByteCodeRunner.CatchUp | lib/pulser/instruction.cpp:250-259 | a lagging sequence writes the whole wait if it is no longer than the least time and 3000, else the least time, and serves nobody |
| ByteCode.ByteCodeRunner.Release | lib/pulser/instruction.cpp:260-267 | the hold is released once, with at least 2000 left, after 1000 more |
| ByteCode.ByteCodeRunner.ServeRequests | lib/pulser/instruction.cpp:260-274 | every request is where one call with the source's limit leaves it, and the remaining time is the true one less the requests' time, modulo 2^64 |
| ByteCode.ByteCodeRunner.Round | lib/pulser/instruction.cpp:242-280 | one round of the loop: which branch the clock decides, the time it takes, the requests it uses up, and that something of the wait's measure falls |
| ByteCode.ByteCodeRunner.WaitLong | lib/pulser/instruction.cpp:242-280 | the loop ends for any clock and any requests; time, wraps and served requests as for the whole wait |
| ByteCode.ByteCodeRunner.Wait | lib/pulser/instruction.cpp:210-281 | for any clock and any requests the wait ends and takes t and 2^64 for each wrap, with at most one release; it wraps at most once per pending request, never and serving nobody if it may not serve requests, and at least once in crowded surroundings if it may |
| ByteCode.ByteCodeRunner.PlayPulse | lib/pulser/instruction.cpp:190-209 | a pulse comes at the current time and lasts its duration, in both accounts |
| ByteCode.ByteCodeRunner.PlayTtl | lib/pulser/instruction.cpp:176-189 | the pulse and the time of a TTL call, with 2^64 more for each wrap |
| ByteCode.ByteCodeRunner.Play | lib/pulser/instruction.cpp:176-211 | each call makes its one pulse when it starts: a TTL call with every line up that is set or preserved, held for t or for 100; any other with its control word and operand as numbers; and it takes its time and 2^64 for each wrap; calls whose wait is below 2000 do not wrap |
| ByteCode.ByteCodeRunner.RunAll | lib/pulser/instruction.cpp:296-307 | a whole sequence makes the pulse of each call at the total of the times before it, and no others, and ends with the wait word of Min; the runner's own time leads by 1000 exactly if it released the hold; no wait wraps if the flag is not set, or all waits are below 2000, or no requests are pending |
| ByteCode.CrowdedRunner | lib/pulser/instruction.cpp:170-175 | for every state of a runner there are surroundings with a request of 50 cycles at each turn and a clock that stands still |
| ByteCode.WrapsExactly | lib/pulser/instruction.cpp:231-280 | for every state of the runner and first clock reading: a run whose wait wraps if and only if the wait may serve requests, for lags below 2^63; and no wait wraps that may not |
| Builder.CallRoundTrip | lib/pulser/instruction.h:55-153 | an encoded call means what was called if and only if its time fits its field |
| Builder.CallWords | lib/pulser/instruction.h:55-153 | what each call that fits is written as, and what it adds to the time, as numbers |
| Builder.AddsMeantTime | lib/pulser/instruction.h:56-62 | the time a call adds is the time its meaning takes |
| Builder.DecodedTimeBound | lib/pulser/instruction.cpp:106-110 | no instruction takes 2^56 cycles or more |
| Builder.WaitTimeExact | lib/pulser/instruction.h:103-110 | the builder's time follows a wait if and only if the wait is below 2^56 |
| Builder.DtWraps | lib/pulser/instruction.h:203-208 | while neither sum wraps, the unsigned comparison and difference of pulseDT are the true ones |
| Builder.BlockBuilder.constructor | lib/pulser/instruction.h:175-179 | a new builder is empty at time 0 |
| Builder.BlockBuilder.PushPulse | lib/pulser/instruction.h:180-187 | the current time stays the decoded duration of all instructions, for every call whose time fits |
| Builder.BlockBuilder.PulseAbsT | lib/pulser/instruction.h:188-198 | fails exactly when t has passed, changing nothing; otherwise the pulse starts at t or less than Min before it |
| Builder.BlockBuilder.PulseDt | lib/pulser/instruction.h:199-209 | on success time advances by exactly dt; too short a pulse fails but stays, with the time still exact |
| Builder.BuiltProgram | lib/pulser/instruction.h:180-187 | a built program decodes to what its calls meant |
| Builder.BuildAndRun | lib/pulser/instruction.cpp:154-165 | from calls to pulses: what was built and run takes effect as the calls meant it, whatever requests are served, in the calls' total time and Min; the builder's time is that total modulo 2^64 |
| LongPulses.PiecesCover | lib/pulser/commands.h:189-200 | the pieces of a long TTL pulse fit 24 bits, follow one another without a gap, hold the value, and end at start + t |
| LongPulses.RunWaitPulse | lib/pulser/commands.h:162-173 | any wait takes exactly t in the fewest wait words, at least one, without operand or timing check |
| LongPulses.RunTtlPulse | lib/pulser/commands.h:189-200 | any TTL pulse is its gapless pieces and takes exactly t |
| Composite.IndexesAreResults | lib/pulser/commands.h:377-391 | the result indexes are increasing positions of result-returning sub-commands, as many as results are counted |
| Composite.NoResultForgotten | lib/pulser/commands.h:377-391 | every sub-command with a result is among the result indexes |
| Composite.BytesOf | lib/pulser/commands.h:278-299 | a one-byte read selects the second byte of its answer, a two-byte read the two lowest |
| Composite.ResponsesAreSelected | lib/pulser/controller.h:252-253 | the j-th result of a composite command answers the sub-command at the j-th result index |
| Composite.SameAnswerEitherWay | lib/pulser/controller.h:214-254 | both ways to run a composite command pass the same converted results on, for all sub-commands and answers, and expect as many results as the FPGA puts out |
| Composite.FrequencyReadBack | lib/pulser/commands.h:433-444 | the frequency put together from two 16-bit reads is the word whose halves were read |
| Composite.FrequencyOfRegisters | lib/pulser/commands.h:433-444 | if the DDS answers two-byte reads with the bytes at the address and behind it, the frequency read is the four bytes from 0x2c on, the lowest first |
| Composite.CompositeWords | lib/pulser/commands.h:433-471 | the words of the commands that read a frequency and probe a channel, as numbers |
| Composite.ProbeReadsBack | lib/pulser/commands.h:456-471 | the probe compares the two values read, not the results of its writes |
| ProtocolInvariant.SpaceExact | lib/pulser/controller.h:400-406 | in every state that keeps the counter invariant the signed space and the signed difference of the wrapped counters are the true ones, within 15 of each other |
| ProtocolInvariant.CountersBatch | lib/pulser/controller.cpp:147-195 | writing requests step by step keeps the totals behind the counters, with at most 15 outstanding |
| ProtocolInvariant.CountersRun | lib/pulser/controller.h:372-386 | synchronous commands keep the totals behind the counters, with at most 15 outstanding |
| ProtocolInvariant.CountersReader | lib/pulser/controller.cpp:57-91 | the reader keeps the totals behind the counters |
| ProtocolInvariant.QueuedBatch | lib/pulser/controller.cpp:164-184 | writing requests keeps the result queue in the order of results held, buffered, coming and still to be written |
| ProtocolInvariant.QueuedRun | lib/pulser/controller.h:231-254 | synchronous commands keep that order |
| ProtocolInvariant.QueuedReader | lib/pulser/controller.cpp:57-106 | the reader keeps that order |
| ProtocolInvariant.FrontIsOwed | lib/pulser/controller.cpp:81-84 | at the front of the result queue are exactly the owners of the results the reader holds |
| ProtocolInvariant.QueuedReaderPop | lib/pulser/controller.cpp:81-84 | in every such state the pop finds one request for each result, and it is that result's own |
| ProtocolSafety.AnsweredReader | lib/pulser/controller.cpp:57-124 | the reader gives each requester its own answer, or 0 if its command has none |
| ProtocolSafety.OrderedBatch | lib/pulser/controller.cpp:160-184 | writing requests keeps written, being written and queued requests in the order of pushing |
| ProtocolSafety.ConservedKept | lib/pulser/controller.cpp:57-195 | no step of any thread loses or duplicates a request |
| ProtocolSafety.NumberedKept | lib/pulser/controller.h:298-306 | no request is issued twice |
| ProtocolSafety.SeparateKept | lib/pulser/controller.h:372-386 | no step mixes the requests of synchronous commands with the queued ones |
| ProtocolSafety.RoundsKept | lib/pulser/controller.cpp:57-91 | each round of the reader is about at least one result, and only the background writer starts a round with the lock |
| ProtocolRuns.CountersKept | lib/pulser/controller.cpp:57-195 | every step of every thread keeps the totals behind the counters |
| ProtocolRuns.OnlyReadingMakesRoom | lib/pulser/controller.cpp:75-80 | only the reader's count makes space grow |
| ProtocolRuns.WhatLetsTheWriterGo | lib/pulser/controller.cpp:205-209 | the writer's predicate becomes true only by a push or the reader's count |
| ProtocolRuns.WakeUpsKept | lib/pulser/controller.cpp:75-86 | every step keeps that whoever is parked on a true predicate is about to be notified |
| ProtocolRuns.InvKept | lib/pulser/controller.cpp:57-214 | every step of every thread keeps the whole invariant |
| ProtocolRuns.Always | lib/pulser/controller.cpp:57-214 | the invariant holds in every state of every run |
| ProtocolRuns.AnswersAreOwn | lib/pulser/controller.cpp:81-89 | in every run each completed request was answered with the FPGA's answer to its own command |
| ProtocolRuns.PopIsExact | lib/pulser/controller.cpp:82-85 | in every run the asserted pop count holds, and the requests popped are those of the results |
| ProtocolRuns.NeverOverfull | lib/pulser/controller.h:400-418 | in every run the FPGA holds at most 15 results or commands that return one, the signed difference stays within 15, and the space is exact when every write is counted |
| ProtocolRuns.ExactlyOnce | lib/pulser/controller.cpp:57-195 | in every run each issued request is in exactly one place, so it is completed at most once |
| ProtocolRuns.QuietMeansDone | lib/pulser/controller.cpp:57-195 | when nothing is queued or under way every issued request has been completed with its answer |
| ProtocolRuns.WrittenInOrder | lib/pulser/controller.cpp:160-184 | in every run queued requests reach the FPGA in the order of pushing, whoever writes them |
| ProtocolRuns.NobodyIsForgotten | lib/pulser/controller.h:408-418 | in every run nobody sleeps on a true predicate unless a notification is due |
| ProtocolRuns.ReaderNeverStuck | lib/pulser/controller.cpp:57-91 | in every run the reader never reads an empty buffer, never lacks a request for a result, and can start when a result is there and every write counted |
| ProtocolRuns.RoundTakesAll | lib/pulser/controller.cpp:60-72 | a round of the reader takes all results there are, never more than the 32 it has room for |
| ProtocolRuns.DumpTakesMost | lib/pulser/controller.cpp:97-106 | notifications left to the reader are taken in order, up to 32 at a time |
| ProtocolRuns.BackgroundTakesAll | lib/pulser/controller.cpp:200-214 | the background writer takes as many requests as there is room for results, and notifies at once |
| ProtocolRuns.WrittenWithoutResult | lib/pulser/controller.cpp:172-183 | a request without a result is completed at once by a writer that notifies, and else left to the reader |
| ProtocolProgress.CostFalls | lib/pulser/controller.cpp:57-214 | without new work every step of every thread, in any order, uses up some of a finite amount, except spurious wake-ups, failed tests and empty rounds of the reader, which leave it as it is |
| ProtocolProgress.FitsKept | lib/pulser/controller.h:408-418 | no step but the start of a command makes a command wait for too many results |
| ProtocolProgress.NotParked | lib/pulser/controller.h:408-418 | with the FPGA empty and the reader at rest nobody is parked for space that can be had |
| ProtocolProgress.DoneCan | lib/pulser/controller.h:249-251 | with the FPGA empty and the reader at rest whoever waits for answers has them all |
| ProtocolProgress.TaskCan | lib/pulser/controller.cpp:147-195 | with the FPGA idle the thread with the lock can always go on |
| ProtocolProgress.WriterCan | lib/pulser/controller.cpp:200-214 | with the FPGA idle and requests queued the holder can release the lock, or the writer is awake or about to be notified |
| ProtocolProgress.NextCan | lib/pulser/controller.cpp:57-214 | in every state that keeps the invariant and is not idle some thread can take a step that gets somewhere |
| ProtocolProgress.IdleIsDone | lib/pulser/controller.cpp:57-214 | in an idle state every request issued has been completed with its own answer |
| ProtocolProgress.CanFinish | lib/pulser/controller.cpp:57-214 | from every such state a finite series of steps without new work or spurious wake-ups completes everything issued |
| ProtocolProgress.NeverFinishes | lib/pulser/controller.h:408-418 | a command that waits for more than 15 results waits on every path, and its requests are never completed |
| ProtocolProgress.CommandOf | lib/pulser/controller.h:388-399 | for every number of results there is a run to a command that asks for them, so the failing case is reached |
| ProtocolProgress.NothingIsStuck | lib/pulser/controller.cpp:57-214 | in every state of every run everything issued can still be completed, with no new work and no spurious wake-up, if and only if no command waits for more than 15 results |
| ProtocolFairness.Settles | lib/pulser/controller.cpp:57-214 | an endless run without new work comes to a point from which only steps are taken that get nowhere |
| ProtocolFairness.ReaderHasTaken | lib/pulser/controller.cpp:112-124 | in a settled fair run the reader has left no result and no notification that it could take |
| ProtocolFairness.QueueIsEmpty | lib/pulser/controller.cpp:200-214 | in a settled fair run with the lock free the background writer has left no request in the queue |
| ProtocolFairness.EverythingCompletes | lib/pulser/controller.cpp:57-214 | in every endless weakly fair run without new work from some point on, everything issued is completed with its own answer from some later point on, spurious wake-ups and any order of the threads included |
| ProtocolFairness.CompletesExactly | lib/pulser/controller.cpp:57-214 | such a run completes everything if and only if no command waits for more than 15 results |
| Fifo.MaskWraps | lib/pulser/controller.h:69-77 | masking a position with the capacity wraps it once |
| Fifo.MaskedDifference | lib/pulser/controller.h:117 | the wrapped difference of the positions, masked, is the distance between them |
| Fifo.EmptyPushOverruns | lib/pulser/controller.h:72-85 | the copies of a bulk push stay in the buffer if and only if there is something to push or the write position is 0 |
| Fifo.SlotsApart | lib/pulser/controller.h:76-84 | free positions and held elements do not meet, across the wrap |
| Fifo.RingAppend | lib/pulser/controller.h:63-85 | writing behind the elements of a ring appends to its contents |
| Fifo.RingPushed | lib/pulser/controller.h:71-85 | what changes only the free positions behind a ring, and puts the new elements there, appends them |
| Fifo.RingDoubled | lib/pulser/controller.h:86-96 | copying the wrapped part behind the old end keeps the contents, for every pair of positions |
| Fifo.RingSplit | lib/pulser/controller.h:181-195 | moving the read position removes exactly the first elements |
| Fifo.RingStretches | lib/pulser/controller.h:187-193 | a stretch of a ring is one or two stretches of the buffer |
| Fifo.Capacity | lib/pulser/controller.h:98-106 | the power of two that the source names is at least 4 and the wanted size rounded down |
| Fifo.ShiftFits | lib/pulser/controller.h:100 | the 32-bit shift gives that power of two if and only if the wanted size is below 2^31 |
| Fifo.Fifo.constructor | lib/pulser/controller.h:98-106 | for sizes below 2^31 a new buffer is empty, with that capacity |
| Fifo.Fifo.Size | lib/pulser/controller.h:112-118 | the number of elements held |
| Fifo.Fifo.SpaceLeft | lib/pulser/controller.h:119-125 | the capacity less that number, never 0 |
| Fifo.Fifo.DoPushOne | lib/pulser/controller.h:63-70 | with room one element is appended |
| Fifo.Fifo.CopyIn | lib/pulser/controller.h:76-84 | one copy or two write exactly the new positions |
| Fifo.Fifo.DoPush | lib/pulser/controller.h:71-85 | with room, across the wrap, the elements are appended in order |
| Fifo.Fifo.DoubleSize | lib/pulser/controller.h:86-96 | the capacity doubles and the contents stay |
| Fifo.Fifo.TryPush | lib/pulser/controller.h:126-135 | as many as fit are appended, and their number returned |
| Fifo.Fifo.TryPushOne | lib/pulser/controller.h:136-145 | one element is appended if and only if one fits, and the answer says so |
| Fifo.Fifo.Push | lib/pulser/controller.h:146-155 | the elements are appended, growth ends, and the capacity never exceeds the larger of its first value and twice the greatest number held |
| Fifo.Fifo.PushOne | lib/pulser/controller.h:156-165 | the same for one element, with one doubling at most |
| Fifo.Fifo.PopOne | lib/pulser/controller.h:166-175 | the oldest element is removed and returned |
| Fifo.Fifo.CopyOut | lib/pulser/controller.h:187-193 | one copy or two read exactly the elements from the read position on |
| Fifo.Fifo.Pop | lib/pulser/controller.h:176-195 | the oldest elements, as many as wanted and held, are removed and returned in order |
| Percent.UrlEncode | molecube/saveloadmap.cpp:112-136 | the loop computes the percent-encoding |
| Percent.UrlDecode | molecube/saveloadmap.cpp:138-160 | the loop computes the decoding, also of malformed and truncated escapes, and yields one exactly if every escape it comes to holds a number |
| Percent.DefinedExactly | molecube/saveloadmap.cpp:142-149 | decoding is defined if and only if every escape that the scan comes to holds a number |
| Percent.HoldsNumber | molecube/saveloadmap.cpp:144-145 | an escape holds a number if and only if it is one or two hexadecimal digits, or ends in one after a blank or a sign |
| Percent.DefinedWithDigits | molecube/saveloadmap.cpp:142-149 | decoding is defined wherever two hexadecimal digits follow each percent sign |
| Percent.UndefinedExample | molecube/saveloadmap.cpp:144-145 | decoding a lone percent sign is not defined |
| Percent.RoundTrip | molecube/saveloadmap.cpp:110-160 | every byte string survives encoding and decoding |
| Percent.EncodedAlphabet | molecube/saveloadmap.cpp:126-133 | an encoding holds only unreserved characters and the percent sign |
| Percent.EncodedConcat | molecube/saveloadmap.cpp:112-136 | encoding works on each byte by itself |
| Percent.KeptAsItIs | molecube/saveloadmap.cpp:125-128 | letters, digits, and the four unreserved marks are written as they are |
| Percent.OthersEscaped | molecube/saveloadmap.cpp:130-131 | any other byte is written as a percent sign and the two lower-case digits of its value |
| Percent.EscapeValue | molecube/saveloadmap.cpp:144-145 | the number that each kind of escape holds |
| Percent.DecodedFirst | molecube/saveloadmap.cpp:142-155 | a plus sign is read as a blank, and any other byte but the percent sign as it is |
| Percent.DecodedEscape | molecube/saveloadmap.cpp:146-149 | an escape is read as the byte of its number |
| Percent.DecodedCut | molecube/saveloadmap.cpp:144-149 | an escape cut short by the end is read as its one digit |
| Percent.DumpMapHtml | molecube/saveloadmap.cpp:88-108 | the dump is the encoded entries with a value, joined by ampersands |
| Percent.DumpOfOne | molecube/saveloadmap.cpp:105 | a field is the name, an equals sign and the value, encoded |
| Percent.DumpOfMore | molecube/saveloadmap.cpp:102-106 | dumps are put together with an ampersand |
| Percent.FieldReadBack | molecube/saveloadmap.cpp:99-105 | a field of a dump is read back to its entry and holds no ampersand |
| Percent.DumpReadBack | molecube/saveloadmap.cpp:88-108 | splitting a dump and decoding gives exactly the entries with a value, in order |
| MapFile.SaveMap | molecube/saveloadmap.cpp:19-32 | the loop writes the entries with a value, one line each |
| MapFile.CutAtNul | molecube/saveloadmap.cpp:27-28 | a string is written up to its first NUL |
| MapFile.SavedConcat | molecube/saveloadmap.cpp:23-31 | each entry is written by itself, in order |
| MapFile.SavedLine | molecube/saveloadmap.cpp:26-30 | the line of an entry, byte by byte; nothing without a value |
| MapFile.LineRead | molecube/saveloadmap.cpp:39-58 | any line is read by its first braces, the next opening one and the last closing one |
| MapFile.LineReadClosedFirst | molecube/saveloadmap.cpp:39-58 | if a closing brace comes first, the name is all that follows the first opening one |
| MapFile.LineWithoutClosing | molecube/saveloadmap.cpp:43-44 | nothing is read without a closing brace |
| MapFile.LineWithoutOpening | molecube/saveloadmap.cpp:49-54 | nothing is read without an opening brace behind the first closing one |
| MapFile.LineWithoutEnd | molecube/saveloadmap.cpp:49-54 | nothing is read without a closing brace behind that |
| MapFile.PutLast | molecube/saveloadmap.cpp:84 | what is assigned last stays |
| MapFile.LoadMap | molecube/saveloadmap.cpp:61-86 | the loop assigns the entries of the file's pieces in order, and nothing if the file did not open |
| MapFile.PieceReadBack | molecube/saveloadmap.cpp:34-59 | an entry is read back from its piece, braces in its value included, if its name has no closing brace |
| MapFile.NameEndsAtBrace | molecube/saveloadmap.cpp:40-47 | a name read from a saved piece never has a closing brace |
| MapFile.LoadedBytes | molecube/saveloadmap.cpp:71-86 | a loaded entry has no separator in it and nothing that is not in the file |
| MapFile.SavedHasNoNul | molecube/saveloadmap.cpp:27-29 | a saved file has no NUL in it |
| MapFile.CleanReadBack | molecube/saveloadmap.cpp:19-86 | the pieces of a saved map are its entries with a value, in order, if none has a separator or a closing brace in its name |
| MapFile.RoundTripExactly | molecube/saveloadmap.cpp:19-86 | loading a saved map gives exactly its entries with a value if and only if none has a semicolon or NUL in it or a closing brace in its name |

## Left out

- ByteCode.ByteCodeRunner.Wait: sequence and clock times do not wrap at 2^64; the difference on lib/pulser/instruction.cpp:251 and the remaining time do. After a wrap, 2^64 cycles on, the source's own times have wrapped too, which may change when it serves requests.
- ByteCode.WrapsExactly: gives no run for a lag of 2^63 or more, 292 years in the clock's unit.
- The clock: it moves at each reading by a scheduled amount, then by at least one unit, which stands for the sleep. Without progress of the clock the source's loop would not end either.
- Controller.Controller.OtherThreads: what the other threads do while a call of `writeRequests` is under way is put before it; their finer steps are in `Protocol`.
- Runner.LetRequestsIn: the other threads act in turns taken just before each call of `writeRequests`, any finite schedule of pushes, reads and notifications; their finer steps are in `Protocol`.
- Runner.RunInstructionList: requires channels below 22 and lines below 32, which the source indexes and shifts by without looking; instructions that return a result, which the encoders do not offer, would leave a result without a request.
- Callers of `run`, `write` and `writeRequests` hold the controller's lock, as lib/pulser/controller.h:355 and 363 demand; some callers do not.
- ProtocolFairness.EverythingCompletes: the threads are assumed to be weakly fair, and a caller with the lock and nothing left to do to release it.
- Protocol.Do: steps are sequentially consistent and a predicate is evaluated at one moment; memory orderings, time-outs of the reader, condition variables sharded by request and quitting are not modelled.
- Protocol.DoRun: a command without results only appends words and is not a step; a composite's words and requests are arbitrary.
- Requests live until they are completed; who frees them is not modelled. The FPGA answers result-returning commands in order.
- Opcodes from 7 up are not used by the source and take no time in the model; queued commands are ones whose parameters leave the opcode alone.
- The pulse-time constants of the sequence library (DDS 50, Min 3, DAC 45, Clock 5) and the bytecode decoder are not part of this model; any list of calls is played.
- Fifo.Fifo.constructor: sizes from 2^31 up, for which the source's shift overflows, see ShiftFits.
- Fifo.Fifo.Push: fewer than 2^62 elements, and something to push unless the write position is 0, see EmptyPushOverruns; the failure of an allocation, spin locks and `tryPop` are not modelled.
- MapFile.SaveMap: a map is a list of its entries with distinct names; write errors and the reasons why a file does not open are not modelled.
- Percent.UrlDecode: yields nothing where the source would use an uninitialised number; a bare `0x` counts as no number; `isalnum` is that of the default locale.
- Floating-point conversions of frequency, amplitude, phase and voltage: the model starts from the integer words.
- The epilogue, the AD9914 set-up, register access, web and socket front ends, and the line parser: no delicate state, or input and output only.
