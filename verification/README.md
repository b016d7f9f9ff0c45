# Verification of the GSM/PPP firmware

A Dafny model of an STM32 firmware that brings up a GSM modem with AT commands, hands the modem's
UART to lwIP's PPP, and carries data over it. `dafny verify dfyconfig.toml` checks all files.

The parts, hardest first:

- **Mode hand-over** (`ModeProtocol`, `ModeProgram`, `ModeSafety`, `ModeOrder`, `ModeWitness`, `ModeTasks`). The GSM
  task, the PPP task and the lwIP status callback share five flags with no lock. `ModeProtocol` has
  one step per shared access and a program counter per task; the scheduler lets the PPP task move only
  while the GSM task, which has the higher priority, is blocked. `ModeProgram` states the program order
  of both tasks, the stores and the commands sent, read off a run alone. `ModeSafety` proves that AT mode and
  PPP mode exclude each other in every run and that a connected modem stays connected; `ModeOrder`
  proves the order of the bring-up stages and the recovery after a failure; `ModeWitness` gives
  concrete runs; `ModeTasks` is the tasks' own code, in the source's statement order over fields it
  updates in place, proved to perform only runs of the protocol.
- **Buffer pool** (`PoolLayout`, `BufferPool`, `PoolTasks`, `PoolRuns`, `PoolAlone`). Address and alignment
  arithmetic for any slot count, buffer size and power-of-two alignment; the three operations on a
  byte array; the pool shared by any number of tasks that interleave between critical sections; and
  the agreement of the two for an undisturbed call.
- **AT replies** (`AtReply`, `AtExchange`, `AtParameter`, `AtRoundTrip`, `AtMutex`). The byte-by-byte
  matcher against the reading of a whole text; the field reader against splitting at commas; and the
  mutex around exchanges.
- **Byte streams** (`ReceivePath`, `PppOutput`, `TcpSend`). Conservation and order of received bytes,
  of PPP packets and of chunked sends.
- **Clock and record encoding** (`SystemClock`, `FpgaRecord`).

`Bytes`, `Arithmetic`, `Modem` and `Wrappers` hold what several modules share.

## What the code does not promise

Some expected properties are false of the code. The model keeps the code as it is and states exactly
when the property holds.

- After a failed PPP connect the modem should be reset before the next bring-up stage. The flag that
  asks for the reset is the last of three stores (gsmPPP.c:111-113), and it can land when the next
  bring-up is already past its test of the flag. `ModeOrder.LateFlag` says the reset is skipped if and
  only if a stage beyond power-on is under way when the store lands; `ModeWitness.LateFlagHappens`
  shows that this occurs under the task priorities.
- The computed core clock is right, up to rounding down, if and only if the PLL product fits in 32
  bits (`SystemClock.ClockError`); `SystemClock.HseOverflow` and `SystemClock.HsiOverflow` give the
  settings for which it does exactly.
- A field read back from a reply loses one leading space if it is the first field and no space is
  printed after the colon (`AtRoundTrip.FieldsOfReply`). The last field is stored but reported as an
  error. The call stays inside its buffers if and only if the cleaned text has at most 127 characters
  and the field fits the output (`AtParameter.GetParameter`).
- A reply longer than the buffer can make a string search leave it. Without a NUL in the reply this
  happens if and only if no prefix of at most 255 bytes is accepted and, after some longer one, at a
  wrapped count above two, the buffer lacks CRLF or the error marker (`AtExchange.LongReply`). A full
  buffer alone is not enough: with both in it the first two searches match inside, and the exchange
  reads on (`AtExchange.ErrorReplyReadsOn`).
- A packet is copied inside its block if and only if there is memory for the block and the packet has
  at most 2048 bytes (`PppOutput.Output.OutputBegin`); the source copies in every case.
- The size guard of the FPGA record is unsigned, so the length -1 passes it and gives an empty record
  (`FpgaRecord.AdmittedLengths`).
- An exchange does not consume the line feed that ends an `OK` reply (`AtReply.OkReplyLeavesLineFeed`).

Readings of the source: `result` in `runAtCommand` is assigned only on success (gsmLLR.c:563, 598);
the model takes the unassigned case as "not `eOk`". The getters read the reply after its buffer is
freed (gsmLLR.c:609); the model reads a snapshot. fpga_buf.c:40 passes the character
`data[count_str]` where its address is meant; the model appends there, as intended.

## Model

| member | source | states |
|---|---|---|
| ModeProgram.GsmProgramOrder | Src/modem/gsm.c:51-142 | in every run each action of the GSM task is followed, for the value it read or the outcome it had, by the one that comes next in the source, whatever the others do in between |
| ModeProgram.PppProgramOrder | Src/modem/gsmPPP.c:100-136 | the same for the PPP task; `ppp_connect` is called only after reading neither `ppp_wait_for_connect` nor `ppp_ready_work` |
| ModeProgram.DialledBeforePpp | Src/modem/gsmLLR.c:194-217 | at every first store of PPP mode the pass has sent exactly the thirteen commands of the source in order, the dial command last, and those whose failure counts have succeeded |
| ModeProgram.SharedStores | Src/modem/gsm.c:51-142 | each shared flag changes in exactly the steps that store it, to the value stored there |
| ModeProgram.CutsInWhereBlocked | Src/modem/gsmPPP.c:72 | a step of the PPP task lies between two of the GSM task's only where that was in a delay or waited for a byte |
| ModeProgram.MayCutIn | Src/modem/gsmPPP.c:72 | and wherever it was, the PPP task can move |
| ModeProgram.EnvironmentChooses | Src/modem/gsmLLR.c:562-614 | memory, transmission, replies, the status pin, the connect and the callback can go either way; a reply is matched only outside PPP mode |
| ModeProgram.FirstActions | Src/modem/gsm.c:44-51 | a run's first GSM action is the test at the loop top and its first PPP action the set-up |
| ModeSafety.ModeExclusion | Src/modem/gsm.c:57-132 | in every reachable state an AT exchange excludes PPP mode, a ready link and the PPP task's connect window, and whenever the GSM task is blocked `init` equals `pppModeEnable`, except between the two stores that take PPP down |
| ModeSafety.ParserErrorUnreachable | Src/modem/gsmLLR2.c:103-105 | no reply byte reaches the AT parser while PPP mode is on, in any run |
| ModeSafety.SwitchStartsFromAtMode | Src/modem/gsmLLR.c:216-217 | PPP mode is only ever turned on from AT mode with the link down |
| ModeSafety.StepKeepsInv | Src/modem/gsmPPP.c:100-136 | every scheduled step of the three parties keeps the invariant that ties the flags to the program counters |
| ModeSafety.OnlineIsStable | Src/modem/gsmPPP.c:118-129 | once the PPP task is in its inner loop and `init` is set, every later state is ready, in PPP mode, receiving, with one subscriber, and the GSM task never re-enters bring-up |
| ModeSafety.SubscriberCreatedOnce | Src/modem/gsmPPP.c:118-125 | the subscriber task is created at most once, directly after the PPP task observed `ppp_ready_work`; `ppp_disconnected` never occurs |
| ModeSafety.CreationsCounted | Src/modem/gsmPPP.c:123-125 | the number of creations in a run is the number of subscriber tasks that exist |
| ModeOrder.BringUpOrder | Src/modem/gsm.c:51-132 | whenever `init` becomes true, the results since the top of the loop are the successes of all eleven stages in program order, whatever interleaves |
| ModeOrder.Recovery | Src/modem/gsm.c:62-71 | after any stage failure no stage beyond power-on is under way before a module reset has completed |
| ModeOrder.FailedCommandResets | Src/modem/gsm.c:73-124 | after a command has failed whose failure counts, no command but power-up probes is sent until a module reset has completed |
| ModeOrder.StepKeepsMustReset | Src/modem/gsmLLR.c:154-159 | no step but the end of a module reset lets the GSM task escape a due reset |
| ModeOrder.StageFinishes | Src/modem/gsm.c:74-120 | a stage under way can always go on to a result without a reset |
| ModeOrder.ThreeAttempts | Src/modem/gsmLLR.c:126-145 | in every run a pass makes at most three attempts to power the module up, and gives up only after exactly three |
| ModeOrder.LateFlag | Src/modem/gsmPPP.c:107-113 | after a failed connect the reset is skipped in some continuation if and only if its last store lands while a stage is under way |
| ModeOrder.InStagesInFull | Src/modem/gsm.c:73-132 | the points at which a stage beyond power-on is under way, one by one |
| ModeWitness.SwitchMustBeAtomic | Src/modem/gsmLLR.c:216-217 | if the switch stretch alone could be interrupted, some run would parse a reply byte in PPP mode |
| ModeWitness.LateFlagHappens | Src/modem/gsmPPP.c:107-113 | under the priorities some run has the late store followed by a stage result with no reset between |
| ModeTasks.Firmware.constructor | Src/modem/gsm.c:40-49 | all flags start cleared, with no subscriber, in the boot state of an empty run |
| ModeTasks.Firmware.PppTask | Src/modem/gsmPPP.c:100-136 | each statement of the PPP task extends the run by a scheduled step and moves on; in its inner loop it changes nothing |
| ModeTasks.Firmware.AwaitReply | Src/modem/gsmLLR.c:589-606 | the wait for a reply extends the run, its error branch for PPP mode is dead, and it ends with a match or a timeout and goes where that sends it |
| ModeTasks.Firmware.RunAtCommand | Src/modem/gsmLLR.c:562-614 | an exchange, with every failure exit, performs steps of the protocol only |
| ModeTasks.Firmware.PowerUp | Src/modem/gsmLLR.c:119-147 | the call extends the run by protocol steps; success arrives at the test of `notRespond` and failure at the module reset |
| ModeTasks.Firmware.ModuleLost | Src/modem/gsmLLR.c:154-159 | a reset ends at the top of the loop with `notRespond` cleared as its last step |
| ModeTasks.Firmware.StartPpp | Src/modem/gsmLLR.c:194-225 | whatever the commands answer, the call extends a run of the protocol, in which `ModeProgram.DialledBeforePpp` holds, to the queue reset, with PPP mode and reception on if its buffer was granted |
| ModeTasks.Firmware.BringUp | Src/modem/gsm.c:57-139 | success leaves the link ready and reception open; failure goes back to the top of the loop with a completed reset or a raised `notRespond` as its last step |
| ModeTasks.Firmware.TestNotRespond | Src/modem/gsm.c:67-71 | the pass goes on exactly when `notRespond` was clear, and otherwise completes a reset |
| ModeTasks.Firmware.RunStages | Src/modem/gsm.c:73-124 | all stages succeed, or `notRespond` is raised and the pass starts over |
| ModeTasks.Firmware.Pass | Src/modem/gsm.c:51-142 | a turn begins with a step at the top of the loop and ends with the delay, or, if the link was down, with a reset or a failed stage |
| ModeTasks.Firmware.VGsmTask | Src/modem/gsm.c:44-142 | the task loop extends a run of the protocol by as many turns as asked, each with its own step at the top of the loop, and there the flags agree |
| PoolLayout.MaskRoundsDown | lib/bufferpool/aws_bufferpool_static_thread_safe.c:60 | clearing the bits of a power-of-two mask is rounding down to a multiple of the alignment |
| PoolLayout.SlotFits | lib/bufferpool/aws_bufferpool_static_thread_safe.c:60-114 | rows are size plus alignment bytes long, the data address is aligned, and the flag, directly before it, and the data bytes lie inside the slot's own row |
| PoolLayout.SlotsDisjoint | lib/bufferpool/aws_bufferpool_static_thread_safe.c:114 | flag and data bytes of different slots never overlap and keep the slots' order |
| PoolLayout.InOneSlot | lib/bufferpool/aws_bufferpool_static_thread_safe.c:60-114 | an address belongs to one slot at most |
| PoolLayout.AlignmentStaysInPool | lib/bufferpool/aws_bufferpool_static_thread_safe.c:60-76 | the address computed before masking never leaves the static array |
| BufferPool.FlagWrite | lib/bufferpool/aws_bufferpool_static_thread_safe.c:84-92 | writing one slot's flag decides that slot and no other |
| BufferPool.Pool.Init | lib/bufferpool/aws_bufferpool_static_thread_safe.c:117-130 | all slots are free afterwards and only flag bytes changed |
| BufferPool.Pool.GetFreeBuffer | lib/bufferpool/aws_bufferpool_static_thread_safe.c:133-178 | the lowest free slot is marked and handed out; NULL exactly when the request is too long or all slots are in use, and then nothing changes |
| BufferPool.MarksInFull | lib/bufferpool/aws_bufferpool_static_thread_safe.c:144-175 | in terms of the bytes: the flag of the slot handed out was 0, those below it were not, and exactly that byte becomes 1 |
| BufferPool.AllInUseInFull | lib/bufferpool/aws_bufferpool_static_thread_safe.c:84-92 | a full pool has no flag byte 0, a free one no other |
| BufferPool.Pool.ReturnBuffer | lib/bufferpool/aws_bufferpool_static_thread_safe.c:181-193 | one byte changes, and for a slot's data address exactly that slot becomes free |
| PoolTasks.StepKeepsInv | lib/bufferpool/aws_bufferpool_static_thread_safe.c:133-193 | every step of every task keeps: flags set exactly for owned slots, each with one owner |
| PoolRuns.PoolSafety | lib/bufferpool/aws_bufferpool_static_thread_safe.c:133-193 | for any tasks, slots and interleaving no buffer is held by two tasks, and the flags set are exactly those of buffers held or marked for delivery |
| PoolRuns.HeldBytesKept | lib/bufferpool/aws_bufferpool_static_thread_safe.c:114 | the bytes of a held buffer stay as its holder left them, whatever the others take, return and write |
| PoolRuns.WriteKeepsFlags | lib/bufferpool/aws_bufferpool_static_thread_safe.c:60-92 | a client's write inside a held buffer changes no flag |
| PoolRuns.HolderMay | lib/bufferpool/aws_bufferpool_static_thread_safe.c:181-193 | in every run a holder can write every byte of its buffer and, outside a call, return it |
| PoolRuns.ReturnClearsOwnFlag | lib/bufferpool/aws_bufferpool_static_thread_safe.c:181-193 | in every run a return clears exactly the flag that was set for the slot it was given |
| PoolRuns.NullMeansAllSeenInUse | lib/bufferpool/aws_bufferpool_static_thread_safe.c:140-177 | a concurrent NULL for a request that fits means each slot was in use at its own visit during the call |
| PoolRuns.NullWithoutReturnsMeansFull | lib/bufferpool/aws_bufferpool_static_thread_safe.c:140-177 | if moreover no buffer was returned during the call, the pool was full when it gave up |
| PoolAlone.CallAlone | lib/bufferpool/aws_bufferpool_static_thread_safe.c:133-178 | in the shared machine an undisturbed call has a full sequence of steps that ends with the lowest free slot marked and held, or with nothing changed when there is none |
| PoolAlone.ScanAlone | lib/bufferpool/aws_bufferpool_static_thread_safe.c:143-175 | a scan that found the lower slots in use goes on to the lowest free slot or to NULL |
| AtReply.OnlineIsOffline | Src/modem/gsmLLR2.c:79-106 | some prefix of a reply is accepted exactly when the whole text holds a complete answer before any error marker, and the shortest one ends where the answer does |
| AtReply.AcceptedFrom | Src/modem/gsmLLR2.c:26-31 | the accepted prefixes of a text are those from the end of its answer up to its first error marker |
| AtReply.ErrorIsFinal | Src/modem/gsmLLR2.c:26-31 | once the error marker has arrived no continuation of the reply succeeds |
| AtReply.OkReplyLeavesLineFeed | Src/modem/gsmLLR.c:587-601 | an `OK` reply is accepted one byte before its end |
| AtReply.ConnectReplyLeavesLineFeed | Src/modem/gsmLLR2.c:26-31 | so is the answer to the dial command |
| AtReply.ErrorReplyRefused | Src/modem/gsmLLR2.c:26-31 | no prefix of a reply is accepted in which an error stands before any answer |
| AtReply.AcceptedTexts | Src/modem/gsmLLR2.c:86-102 | a NUL-free text is accepted exactly if it contains CRLF, the `OK` or `CONNECT` marker and no error marker |
| AtReply.ContainsIsSubstring | Src/modem/gsmLLR2.c:88-93 | the search finds a string exactly if the text is something, the string, and something |
| AtExchange.FirstMarkerDecides | Src/modem/gsmLLR2.c:26-31 | with the table in its order, the first marker found means success exactly when no error marker occurs and `OK` or `CONNECT` does |
| AtExchange.ReportMeansAccepted | Src/modem/gsmLLR2.c:79-106 | the parser's report is a success exactly when the text is accepted outside PPP mode |
| AtExchange.UartParser.Parse | Src/modem/gsmLLR2.c:79-107 | a search leaves the buffer if and only if the guards hold and there is neither a terminator nor both CRLF and the error marker; otherwise the report names the first marker of the table that occurs, and finds none exactly when its guards fail or none occurs |
| AtExchange.UartParser.RunAtCommand | Src/modem/gsmLLR.c:562-614 | for replies of any length, the exchange consumes exactly the shortest prefix on which the parser succeeds or its searches leave the buffer, or everything and fails; in PPP mode it always takes everything and fails |
| AtExchange.OutcomeIsOffline | Src/modem/gsmLLR.c:587-601 | for replies shorter than the buffer, the result and the number of bytes taken are those read off the whole text |
| AtExchange.LongReply | Src/modem/gsmLLR.c:589-592 | for NUL-free replies a search leaves the buffer if and only if no prefix of at most 255 bytes is accepted and after some longer one, at a wrapped count above two, the buffer lacks CRLF or the error marker; every success is within 255 bytes |
| AtExchange.FirstSearchAfterWrap | Src/modem/gsmLLR2.c:85-88 | of NUL-free replies the 256th to 258th byte are not searched for and the 259th is |
| AtExchange.ErrorReplyReadsOn | Src/modem/gsmLLR2.c:86-102 | 259 NUL-free bytes that begin with an error reply fill the buffer, are searched without leaving it, and do not end the exchange |
| AtExchange.BufferIsRing | Src/modem/gsmLLR.c:591-592 | with the 8-bit counter each index of the buffer holds the last byte that landed there |
| AtParameter.GetParameter | Src/modem/gsmLLR.c:616-682 | on every input: the call stays inside its buffers if and only if the cleaned text has at most 127 characters and the field fits; then exactly field `paramNum` is stored, the rest of the output is untouched, and the answer is `eOk` exactly when a comma follows the field; missing input or output, or a start character that does not occur, gives `eError` and stores nothing; without a start character the whole input is read |
| AtParameter.StrChr | Src/modem/gsmLLR.c:624-634 | there is no rest exactly if a character other than NUL does not occur; otherwise the rest begins at its first occurrence |
| AtParameter.CleanSingle | Src/modem/gsmLLR.c:639-649 | cleaning removes CR, LF, quote and colon and no other character |
| AtParameter.SplitTwo | Src/modem/gsmLLR.c:660-668 | a comma ends one field and begins the next, and only a comma does |
| AtParameter.DropsOneSpace | Src/modem/gsmLLR.c:660-662 | one leading space is dropped and no other character |
| AtParameter.CopyField | Src/modem/gsmLLR.c:655-681 | the copying loop stores what splitting at commas gives at that position, and leaves the output if and only if that is longer |
| AtParameter.Filter | Src/modem/gsmLLR.c:639-650 | the filter keeps all characters but CR, LF, quote and colon, in order, and leaves room for the terminator if and only if they are fewer than the buffer |
| AtParameter.JoinSplit | Src/modem/gsmLLR.c:660-680 | the fields joined by commas are the text again |
| AtParameter.SplitJoin | Src/modem/gsmLLR.c:660-680 | splitting joined comma-free fields gives the fields back |
| AtParameter.SplitPrefix | Src/modem/gsmLLR.c:660-668 | a field that has its comma does not depend on what follows, so the early return is sound |
| AtRoundTrip.FieldsOfReply | Src/modem/gsmLLR.c:624-681 | every rendered field, quoted or bare, is read back at its position with a comma behind it; the one exception is a first field's leading space directly after the colon |
| AtRoundTrip.FirstValue | Src/modem/gsmLLR.c:616-682 | of a reply with a colon, a space, a value and a comma the value is read, whatever else the reply holds |
| AtRoundTrip.ReadBack | Src/modem/gsmLLR.c:616-682 | the same through the method: `eOk` and the output starts with the field, if and only if the buffers are long enough |
| AtMutex.CallsInFull | Src/modem/gsmLLR.c:173-445 | what each command function does with the mutex and how many exchanges it runs, operation by operation |
| AtMutex.SendInFull | Src/modem/gsmLLR.c:499-530 | a chunked send holds the mutex throughout and runs no AT exchange |
| AtMutex.ProbesInFull | Src/modem/gsmLLR.c:119-147 | a power-up runs one exchange, under the mutex, for each attempt that finds the module powered |
| AtMutex.CommandPaired | Src/modem/gsmLLR.c:173-445 | in every command each exchange begun is finished at once |
| AtMutex.CommandIsBracketed | Src/modem/gsmLLR.c:173-445 | every command function takes the mutex only when it does not hold it, performs exchanges only while holding it, and returns with it released; `PowerUp` calling `ATAT` included |
| AtMutex.ExchangesExclude | Src/modem/gsmLLR.c:103-114 | for any tasks, command lists and schedule at most one task is in `runAtCommand`, it owns the mutex, no task waits for a mutex it owns, and a finished task owns none |
| AtMutex.DepthIsHistory | Src/modem/gsmLLR.c:103-114 | in every reachable state a task is inside `runAtCommand` exactly if the last thing it did was to start an exchange, and outside the mutex exactly if it gave it as often as it took it |
| AtMutex.ScheduledStep | Src/modem/gsmLLR.c:103-114 | a scheduled task performs its next operation unless that is a take of an owned mutex, and no other task moves |
| AtMutex.ProgramInFull | Src/modem/gsmLLR.c:173-445 | a task's operations are those of its commands one after the other, none dropped |
| AtMutex.LoneExchange | Src/modem/gsmLLR.c:184-192 | after the first two steps of a lone command its task is inside an exchange and owns the mutex |
| AtMutex.SomeTaskCanStep | Src/modem/gsmLLR.c:103-114 | as long as some task has work left, some task can proceed |
| ReceivePath.Conservation | Src/modem/gsmLLR2.c:67-77 | for every history of events the bytes the interrupt accepted are, in order, those taken by the AT loop, taken by the input task or discarded, and then those still queued, and the queue never exceeds its length |
| ReceivePath.TakersPartition | Src/modem/gsmLLR.c:589-592 | every byte that left the queue went to exactly one of AT loop, input task and discard |
| ReceivePath.Uart.RxCallback | Src/modem/gsmLLR2.c:67-77 | a byte is queued exactly when reception is open and the queue has room, and the history gains this one event |
| ReceivePath.Uart.Do | Src/modem/gsm.c:129-131 | every other event is added to the history, sets exactly the flag it names, and leaves the fields as the longer history says |
| ReceivePath.Uart.RawInputTurn | Src/modem/gsmPPP.c:145-164 | outside PPP mode a turn changes nothing; in it the history gains the gaps and takes in turn, up to the first take that finds the queue empty or to 2047, and at most one chunk of 1 to 2047 bytes is passed on and nothing kept back |
| ReceivePath.Uart.Run | Src/modem/gsmPPP.c:145-164 | for any schedule the history is the schedule's, the chunks given to PPP are together the bytes the input task took in it, the AT loop was given the bytes it took, and the accepted bytes are those taken or discarded and then those queued; while PPP mode stays off the input task takes and passes on nothing |
| ReceivePath.Uart.Reset | Src/modem/gsm.c:129 | a queue reset empties the queue and enters the history, which records every queued byte as discarded and none as taken |
| PppOutput.HistoryBalanced | Src/modem/gsmPPP.c:166-214 | for every history each live block is in exactly one of filling, queued and in hand, and the packets queued, each with the data `output_cb` was called with, are those the UART accepted and then those pending, in order |
| PppOutput.HeldIsGiven | Src/modem/gsmPPP.c:200-202 | for every history each live block holds the packet its `output_cb` call was given |
| PppOutput.UartIsPrefix | Src/modem/gsmPPP.c:176-180 | the UART's bytes are a prefix of the queued packets' bytes, and all of them once nothing is pending |
| PppOutput.Output.OutputBegin | Src/modem/gsmPPP.c:198-206 | the copy stays inside the block if and only if there is memory and the packet has at most 2048 bytes; then a fresh block holds exactly the packet and no other block changes |
| PppOutput.Output.RawOutputTurn | Src/modem/gsmPPP.c:166-186 | the UART gains exactly the data given for the oldest queued block, once, however often it is refused, and the block is freed |
| PppOutput.Output.Happen | Src/modem/gsmPPP.c:166-214 | every possible event enters the history and leaves blocks, queue and output as the longer history says |
| PppOutput.Output.Run | Src/modem/gsmPPP.c:166-214 | for any offered events exactly those that can happen do, in turn, and the UART's bytes are a prefix of the bytes `output_cb` was given in the order of its sends, all of them once nothing is pending |
| PppOutput.PerformedIsMaximal | Src/modem/gsmPPP.c:166-214 | an offered event happens exactly if the history so far can go on with it |
| PppOutput.WhenLegal | Src/modem/gsmPPP.c:74 | when a history can go on with an event: a fresh block for at most 2048 bytes, a filled one while fewer than twelve are queued, and the output task's steps in turn |
| PppOutput.QueueBounded | Src/modem/gsmPPP.c:74 | never more than twelve blocks are queued |
| TcpSend.TcpSend | Src/modem/gsmLLR.c:499-530 | success exactly when there is data and every chunk is accepted; the chunks handed over are the leading chunks of the data, all of them on success; the 16-bit position is the number of bytes handed over, so it never wrapped |
| TcpSend.ChunksAreTheData | Src/modem/gsmLLR.c:506-524 | the ceil(n/1512) chunks concatenate to the data, each has 1 to 1512 bytes and all but the last are full |
| SystemClock.Rcc.SystemCoreClockUpdate | Src/system_stm32f4xx.c:239-285 | by the register fields alone: 16 MHz, 25 MHz or the PLL's 32-bit result from 25 MHz (bit 22 set) or 16 MHz, divided by the bus divider; and it is at most the exact clock and below it by less than the rounding bound if and only if the PLL, if it is the source, does not overflow |
| SystemClock.ShiftIsDivider | Src/system_stm32f4xx.c:137 | the prescaler table holds the exponents of the bus dividers 1, 2, 4, 8, 16, 64, 128, 256 and 512 |
| SystemClock.BoardClock | Src/main.c:237-251 | the board's settings give 119999952 Hz |
| SystemClock.ClockError | Src/system_stm32f4xx.c:254-284 | for every source frequency and all register values, the result is at most the exact clock and misses it by less than N/(P*2^s) + 1 if and only if the PLL product fits in 32 bits |
| SystemClock.RightInFull | Src/system_stm32f4xx.c:254-284 | the bound in full: at most f*N/(M*P*2^s), and below that by less than N/(P*2^s) + 1; overflow is a product of 2^32 or more |
| SystemClock.RightWithoutOverflow | Src/system_stm32f4xx.c:254-284 | without overflow the bound holds for every factor and divider, register values or not |
| SystemClock.DecodeRegister | Src/system_stm32f4xx.c:259-275 | settings written into the PLL register's fields are read back, whatever the other bits hold |
| SystemClock.HseOverflow | Inc/stm32f4xx_hal_conf.h:95-97 | with the 25 MHz source the product fits if and only if M >= 3, or M = 2 and N <= 343, or M = 1 and N <= 171 |
| SystemClock.HsiOverflow | Inc/stm32f4xx_hal_conf.h:108-110 | with the 16 MHz source the product fits if and only if M >= 2 or N <= 268 |
| FpgaRecord.AdmittedLengths | Src/fpga_buf/fpga_buf.c:29 | the guard admits exactly 0 to 254 bytes and, by wrap-around, the length -1 |
| FpgaRecord.Recorder.PutFpgaRecord | Src/fpga_buf/fpga_buf.c:26-55 | success exactly with the mutex, an admitted length, memory and a queue slot; then one record is appended that holds the hex line, CRLF and terminator inside 512 bytes; otherwise the queue is unchanged |
| FpgaRecord.WriteDigits | Src/fpga_buf/fpga_buf.c:35-39 | the loop's overlapping writes leave the two digits of every byte in order |
| FpgaRecord.RoundTrip | Src/fpga_buf/fpga_buf.c:36-39 | the text has two hex digits a byte and decoding it gives the bytes back |
| FpgaRecord.EncodeInFull | Src/fpga_buf/fpga_buf.c:35-39 | each byte adds two lowercase hex digits, the high one first |

## Left out

- FreeRTOS, lwIP, HAL and mbedTLS internals: queues are bounded FIFOs, the mutex is not recursive, and drivers answer as the environment chooses. Priority inheritance is not modelled.
- Real time: a delay is a point where others may run, a timeout is the end of the bytes that arrive.
- Debug printing; it is taken not to block. GPIO, clock setup, external memory, interrupt glue, credentials, configuration headers.
- The status callback's reconnect and its choice between the two stored values: the callback may store either at any time, which allows more runs than the code.
- ModeTasks.Firmware.Block: lets the other parties move at the GSM task's blocking points only; the callback between two non-blocking statements is covered by the protocol's runs, not by this code.
- ModeTasks.Firmware.StartPpp: does not model the failure answer of gsmLLR.c:194-225, because the code always returns `eOk`; the branch at gsm.c:133-137 is unreachable.
- Loss-freedom of `ppp_ready_work`: the callback and the PPP task both store `pppState`, and one store can overwrite the other.
- Exclusive use of the receive queue: `rawInput` tests the mode once a turn, so conservation is claimed, not that only one reader is active.
- The C library: `strstr` is taken to read byte by byte up to the end of the first match or the terminator; a version that reads ahead could leave the buffer in more cases.
- What follows once a load or store has left its buffer: `AtParameter.GetParameter`, `AtExchange.UartParser.RunAtCommand` and `PppOutput.Output.OutputBegin` say when that happens and stop there. Strings are given by their content before the terminator.
- Extraction with `sscanf` in the IMEI, IMSI and version getters, and the bytes before `getParameter` in the SMS and SIM-number readers.
- BufferPool.Pool.ReturnBuffer: for an address that is not a slot's data address it states only which byte changes; in the task machine every return is of a buffer the task holds.
- PppOutput.Output.TransmitOnce: takes the driver to have the whole block when it accepts it, although the source frees the block right after the non-blocking call.
- SystemClock.Rcc.SystemCoreClockUpdate: requires a PLL input divider other than the reserved 0, by which the source divides unchecked.
- FpgaRecord.Recorder.PutFpgaRecord: does not model the record's unused length, time and magic fields, nor the memory lost when the queue refuses a record.
- `Src/fpga_buf/fpga_commander.c`: its receive counter and re-arming do not keep the record equal to the received bytes.
- Byte-order macros and the version union, which would only add easy members.
