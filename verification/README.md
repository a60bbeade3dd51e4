# Verified models of a PIM simulator collection

The repository holds cycle-level simulators of HBM2 and HBM3 memories with processing units inside (PIM), the half-precision library they compute with, and the programs that prepare their inputs. This project models the parts of it on which everything else relies, and proves what they are for. Dafny 4.11 checks it with `dafny verify dfyconfig.toml`; nothing of the original is executed.

Objects whose methods update fields are classes with those fields, loops are loops, and every such method is proved against a specification function or a stated property. The properties themselves are lemmas about those functions, or contracts of the methods.

## The main results

**HBM2 controller, queue and ranks** (`Dram`, `CommandQueue`, `Rank`, `MemoryController`, `MemorySystem`, `TimingSafety`, `ModeSwitch`, `SystemSafety`, `BusSafety`, `Conservation`, `Runs`, `RunStages`, `SharedBus`, `Spacing`, `SpacingRuns`, `Latency`, `ModeRegisters`). The controller and every rank keep separate copies of the bank states, and a rank exits when a command does not fit its own. One cycle of the whole system is a function `Cycle` whose failures are the exits of the simulator; the classes are proved to perform exactly that cycle. An inductive relation says that the deadlines of a rank are at most those of the controller plus one cycle, or already past, and that a rank has a bank open exactly when an ordinary row is open in the table of the controller; in all-bank mode every bank follows bank 0 or 1, by parity. It follows for every run that no command is ever illegal, no read burst is overwritten, no returned read lacks its transaction, transactions are conserved, and write bursts never clash on the bus that the ranks share, provided that `numRanks` is 1 or `max(1, tRCDWR - AL) + 1` is at least `BL/2`; `SharedBus.ClashesExactly` shows that this condition is exact, with a run from the initial state that clashes otherwise. `Runs.SingleBankRunIsSafe` assumes of a run only that its ranks stay in SB mode. Runs may switch between SB and all-bank mode where the switch fits: no ordinary row is open in a bank from 2 on or in the bank of its parity, and no deadline for activating such a bank is beyond that of its new peer. `ModeSwitch.SwitchSurvivesExactly` and `Runs.SwitchIsDecided` show that this, too, is exact, and two lemmas play a fresh system into all-bank mode and out of it at the wrong moment.

`Spacing` says how far apart the commands of any run are, in the parameters themselves: recovery before a row is closed, row time before a column access, column gaps by bank group, turnarounds, and refresh time. Rows open one after the other, and columns of different ranks, keep their distance only in part, because a refresh overwrites the activation deadline and may follow a PRECHARGE at once, and because an access delays only the rows of other ranks that are open. `SpacingRuns` gives the exact configurations for each of these bounds, with a run for every other one. Every column access and PRECHARGE finds the row that was opened last, and the bursts of reads and writes are on their buses in the cycles that `Latency` says. `ModeRegisters` tells from the commands that a rank has received in which mode it is.

**Scheduling** (`Scheduling`, `QueueHistory`, `ReadData`, `Bank`, `Progress`, `BlockedRun`, `Drain`). Over any sequence of arrivals and issues that the dependence rule of the queue allows, BAR packets are fences, accesses to one cell stay in order, and every read gets the value of a strict first-in first-out replay, down to the linked lists of the banks. `QueueHistory.RunAnswers` carries this to every run of the whole system, late barriers included: what `pop` has given a rank is matched with what was asked of it, each request once and none lost, no request is met across a barrier, and every read gets the data of execution in order of arrival. `ReadData.RunServes` says the same of the transactions themselves: each access is for one that arrived before, at the place of its address, and if different addresses lie in different places, every read finds what the last write to its address before it stored. With no refresh waiting and past all deadlines, `pop` comes back empty-handed if and only if every rank has an empty queue and all rows closed, or is blocked by a fence: a BAR packet that wants the row its bank has open, behind packets for other rows of that bank. Some run gets there if and only if a queue has room for two packets (`BlockedRun.BlocksExactly`); without barriers, `Drain.QueuesDrain` shows that the queues are empty after a number of cycles that is computed from their contents.

**Half precision** (`Rounding`, `Half`, `HalfRoot`, `HalfConversion`). Sum, product, quotient, fused multiply-add and square root of all operands, and the conversions from and to double, are correctly rounded to nearest even in the sense of sections 4.3.1, 5.4.1 and 5.4.2 of IEEE 754-2008. `Nearest` is stated over exact fractions and all halves, without reference to bits.

**DRAM node tree** (`TimingTree`). The cached ready clocks of a tree of nodes, updated in place, agree with a declarative table of timing constraints over the whole history of issues. The query of a command is ready exactly when all of them hold at the levels that it reaches, and runs that issue what it admits keep every window and every spacing of the table.

**PIM commands and sequencer** (`PimCommand`, `PimSequencer`, `PimLoops`). Encoding and decoding of commands, and a program counter with one jump and one repeat counter for the whole program. The object executes what the machine of these counters executes, one command for each access that the control byte lets through, and `PimLoops.UnrollsExactly` says for which programs that is what their loops are meant to do: a loop in a loop is never left, and a jump without a counter, which takes a lap from the loop around it, does no harm where the loop is taken back only once or where that jump closes the loop itself.

**Algorithms** (`Csr`, `AddressMapping`, `ClockDomain`, `SpmvTrace`, `Npy`). A stable grouping of a sparse matrix by rows, eleven bijective address mappings whose fields are stated as slices of the address, an exact callback rate between clock domains, a balanced partition with a trace that computes the product row by row, and the header text of NPY files.

## Assumptions

`Config.Valid` lists what the controller needs of its parameters: `tCMD` is 1, since the command bus collides otherwise; `tRP`, `tRFC`, `RL`, `WL` and `BL/2` are positive; `tWTRL` is at least `tWTRS`; `tRCDRD` and `tRCDWR` are at least `AL`; and the read-to-write delay is not negative. Clocks and counters are unbounded integers; the source keeps them in 32 and 64 bits. The mapping of addresses is a function parameter of the controller with ranks and banks in range. The mode that the PIM unit asks for when a write reaches it, and the outcome of `pop` within what the queue admits, are inputs of a cycle of the pure machine; the `CommandQueue` class fixes the latter. A run consists of arriving transactions, late barriers and cycles. `Drain` and `BlockedRun` ask for limits on activations and on accesses to a row that are positive. All-bank mode needs banks 0 and 1 in one bank group, and banks 8 and 9 to be entered when there are more than two.

## Where comments and code differ

The code is followed in each case.

- HBM2_PIM/src/Bank.cpp:55-56 promises a tracer value for a row that was never written; the code leaves the buffer of the packet as it is.
- HBM2_PIM/src/CommandQueue.cpp:80 speaks of counters that keep rows from staying open too long, and line 99 of activation windows; neither counter is ever raised.
- HBM2_PIM/lib/npy.h:313-315 asks for padding to a multiple of 16 bytes; the code pads with 1 to 16 spaces, a full 16 when none is needed.
- HBM2_PIM/lib/npy.h:271-273 prints an empty shape as nothing, which the parser of the same file rejects: the round trip holds if and only if the shape is not empty.

## Model

| member | source | states |
|---|---|---|
| Runs.RunIsSafe | HBM2_PIM/src/MemorySystem.cpp:230-258 | in every state of every run whose mode switches fit, over any arrivals and any outcome of `pop` that the queue allows, controller and ranks are in sync, data buses are clear and transactions balance |
| Runs.RunNeverExits | HBM2_PIM/src/MemoryController.cpp:459-587 | the next cycle after any such run, whatever switch it brings, executes no illegal command, loses no read burst, finds a transaction for every returned read, and has no clash of write bursts where the delays fit the shared bus |
| Runs.SwitchIsDecided | HBM2_PIM/src/Rank.cpp:402-449 | in every state of every such run, a switch that is about to happen lets the rank accept everything until the next switch if and only if it fits |
| Runs.RunKeepsRegisters | HBM2_PIM/src/Rank.cpp:437-449 | in every state of every run, a rank in SB mode counts no SBMR row as closed |
| Runs.SingleBankRunIsSafe | HBM2_PIM/src/Rank.cpp:117-199 | a run whose ranks stay in SB mode, over any mix of banks, ranks and reserved rows and with nothing assumed about its commands, is safe in every state, and its next cycle does not exit where the delays fit the shared bus |
| Runs.StayingFits | HBM2_PIM/src/Rank.cpp:402-449 | a cycle that leaves all ranks in SB mode has delivered no command that switches a mode |
| Runs.RanksMoveInLockstep | HBM2_PIM/src/Rank.cpp:194-226 | in all-bank mode, in every state of every run, two banks of one parity have the same state and, when active, the same open row |
| Runs.CycleIsSafe | HBM2_PIM/src/MemorySystem.cpp:230-258 | one cycle from a safe state: no exit where the delays fit the shared bus, and safety of the next state when the switch of a mode, if any, fits |
| Runs.CycleSettles | HBM2_PIM/src/MemoryController.cpp:412-440 | a bank that is closing its row becomes idle before it may be activated again |
| Runs.ArrivalIsSafe | HBM2_PIM/src/MemoryController.cpp:595-608 | accepting a transaction keeps all invariants |
| Runs.InitiallySafe | HBM2_PIM/src/MemoryController.cpp:42-100 | a system that has just been built is safe |
| Runs.ControllerKeepsBuses | HBM2_PIM/src/MemoryController.cpp:473-525 | a controller cycle keeps read bursts apart, and write bursts of all ranks where the delays fit the bus they share |
| Runs.OrdinaryFits | HBM2_PIM/src/Rank.cpp:402-449 | without reserved rows no command switches a mode |
| Runs.CycleStaysOrdinary | HBM2_PIM/src/Rank.cpp:376-476 | traffic without reserved rows stays in SB mode for good |
| Runs.CheckSwitch | HBM2_PIM/src/Rank.cpp:402-449 | whether the pending switch fits can be computed from the tables and ranks before the cycle |
| Runs.BarrierIsSafe | HBM2_PIM/src/MemoryController.cpp:135-143 | so does a barrier put behind the transaction that is queued last |
| Runs.AcceptTransaction | HBM2_PIM/src/MemoryController.cpp:595-608 | an arrival changes nothing but what waits to be scheduled, and makes the run of the objects one event longer |
| Runs.AcceptBarrier | HBM2_PIM/src/MemorySystem.cpp:190-208 | so does a late barrier, which is refused when the controller is full or nothing waits |
| Runs.Advance | HBM2_PIM/src/MemorySystem.cpp:210-258 | the running objects, with any number of ranks and any rows: where the delays fit the shared bus, one arrival, one barrier and one cycle do not exit, and the system stays safe and its run goes on when the switch of the cycle, if any, fits |
| Runs.Simulate | HBM2_PIM/src/MemorySystem.cpp:230-258 | a simulation over any arrivals, barriers and modes that the PIM unit asks for never exits and goes on, safe, as a run in the sense of all these results, until a switch that does not fit; without reserved rows to the end |
| TimingSafety.PoppedPasses | HBM2_PIM/src/Rank.cpp:117-199 | a command that is ready in the table of the controller passes the check of the rank one cycle later, in every mode |
| TimingSafety.BankStillTracks | HBM2_PIM/src/MemoryController.cpp:169-284 | after a command, the deadlines of a rank bank stay within one cycle of those the controller keeps for the bank that stands for it, and the rank has it open exactly when an ordinary row is open there |
| TimingSafety.IssueKeepsTracking | HBM2_PIM/src/MemoryController.cpp:169-284 | the same for all banks of the rank that the command is for |
| TimingSafety.IssueKeepsOthers | HBM2_PIM/src/MemoryController.cpp:196-203 | a command to another rank only adds to the deadlines of the controller |
| TimingSafety.TimeKeepsTracking | HBM2_PIM/src/MemoryController.cpp:412-440 | a tick of the countdowns and the passing of time keep the relation |
| TimingSafety.SwitchIsExact | HBM2_PIM/src/Rank.cpp:402-449 | a switch between SB and all-bank mode, in either direction, keeps the relation if and only if no ordinary row is open in a bank from 2 on or in the bank of its parity, and no rank deadline for activating such a bank is beyond that of its new peer |
| TimingSafety.QuietSwitch | HBM2_PIM/src/Rank.cpp:402-449 | in particular a rank whose banks are idle with all deadlines passed may switch |
| ModeSwitch.SurvivesExactly | HBM2_PIM/src/Rank.cpp:117-199 | until the next switch, with no SBMR row counted as closed, every sequence of commands that the controller may ever pop, with any modes that the PIM unit asks for, is accepted if and only if the relation holds now |
| ModeSwitch.SwitchSurvivesExactly | HBM2_PIM/src/Rank.cpp:402-449 | after a switch every command is accepted until the next one if and only if the switch fits |
| ModeSwitch.TrackedStep | HBM2_PIM/src/Rank.cpp:98-115 | what may be popped is legal, and unless it is a switch the relation holds a cycle later |
| ModeSwitch.UntrackedBankFails | HBM2_PIM/src/Rank.cpp:117-174 | a bank that does not follow its peer leads to a rejected command |
| ModeSwitch.UpperRowFails | HBM2_PIM/src/Rank.cpp:194-198 | so does, in all-bank mode, an ordinary row that is open in a bank from 2 on |
| ModeSwitch.EnteringWithAnOpenRowIsUnsafe | HBM2_PIM/src/Rank.cpp:402-418 | from a fresh system: a row opened in bank 2, the four ABMR commands, and a PRECHARGE of that row that the controller may pop and the rank rejects |
| ModeSwitch.LeavingWithAnOpenRowIsUnsafe | HBM2_PIM/src/Rank.cpp:437-449 | from a fresh system, through both mode registers: a row opened in bank 0 before the last SBMR row is closed, and an ACTIVATE of bank 2 that is rejected after the switch |
| ModeSwitch.Enters | HBM2_PIM/src/Rank.cpp:402-418 | the ABMR row, opened in banks 0, 1, 8 and 9 at any calm moment, turns all-bank mode on |
| ModeSwitch.Leaves | HBM2_PIM/src/Rank.cpp:437-449 | the SBMR row, closed in banks 0 and 1 with an ordinary row opened in between, turns it off with that row open in every even bank |
| ModeRegisters.EntersExactly | HBM2_PIM/src/Rank.cpp:402-418 | a rank leaves SB mode with a command if and only if that opens row 0x27ff at column 0x1f, and the row has then been opened so on banks 0 and 1, and on 8 and 9 where there are more than two banks |
| ModeRegisters.LeavesExactly | HBM2_PIM/src/Rank.cpp:437-449 | a rank goes back to SB mode with a command if and only if that closes row 0x2fff with the PIM units at rest, and the row has then been closed so on banks 0 and 1 |
| SystemSafety.DeliveryIsLegal | HBM2_PIM/src/MemoryController.cpp:459-471 | the command on the bus is accepted, whether or not it switches the mode |
| SystemSafety.DeliveryKeepsSync | HBM2_PIM/src/Rank.cpp:98-115 | its rank is up to date afterwards, a fitting switch included |
| SystemSafety.IssueKeepsSync | HBM2_PIM/src/MemoryController.cpp:531-534 | popping a command meets no busy command bus and keeps every rank in step for the next cycle |
| SystemSafety.ControllerKeepsSync | HBM2_PIM/src/MemoryController.cpp:459-587 | a controller cycle has no illegal command and no clash on the command bus, and keeps the relation when the switch of a mode, if any, fits |
| SystemSafety.RanksKeepSync | HBM2_PIM/src/Rank.cpp:478-518 | the data buses of the ranks have no say in the relation or in a switch |
| SystemSafety.CycleKeepsSync | HBM2_PIM/src/MemorySystem.cpp:230-258 | the same for a cycle of the whole system |
| SystemSafety.InitiallyInSync | HBM2_PIM/src/Rank.cpp:41-62 | all copies agree at the start |
| BusSafety.StaggeredCycle | HBM2_PIM/src/MemoryController.cpp:496-525 | countdowns that keep a burst apart stay so when a cycle passes, and the next burst never finds the bus taken |
| BusSafety.StaggeredJoin | HBM2_PIM/src/MemoryController.cpp:171-177 | a burst that joins no earlier than the last one ends keeps the spacing |
| BusSafety.WriteCycle | HBM2_PIM/src/MemoryController.cpp:473-525 | with the write bursts of all ranks apart, one cycle of the data path does not collide |
| BusSafety.IssueKeepsWritesApart | HBM2_PIM/src/MemoryController.cpp:208-267 | any command that is ready in the table of the controller keeps the write bursts of all ranks apart where the delays fit |
| BusSafety.BankMindsTheBus | HBM2_PIM/src/MemoryController.cpp:245-256 | a bank whose row has just been opened takes long enough to reach the bus |
| BusSafety.ReadCycle | HBM2_PIM/src/Rank.cpp:478-515 | a read burst is never put on top of one that is still on the bus of the rank |
| BusSafety.ArrivalKeepsReadsApart | HBM2_PIM/src/Rank.cpp:380-389 | a READ that arrives keeps read bursts apart |
| BusSafety.IssueKeepsReadsApart | HBM2_PIM/src/MemoryController.cpp:185-206 | a READ that is ready in the table of the controller keeps read bursts apart |
| SharedBus.ClashesExactly | HBM2_PIM/src/MemoryController.cpp:473-525 | some run ends with write bursts clashing on the shared bus if and only if there are several ranks and max(1, tRCDWR - AL) + 1 is below BL/2 |
| SharedBus.FirstWrite | HBM2_PIM/src/MemoryController.cpp:208-242 | the first half of the run that clashes: a write waits for its row, and a transaction for another rank arrives as it leaves |
| SharedBus.SecondWriteClashes | HBM2_PIM/src/MemoryController.cpp:245-256 | the second half: the other rank opens its row at once, and its write is due while the first burst is still on the bus |
| RunStages.CyclePlays | HBM2_PIM/src/MemoryController.cpp:459-587 | a cycle of a reached state goes through whenever the write path does, with the outcome that the queue allows |
| Conservation.ControllerKeepsBalance | HBM2_PIM/src/MemoryController.cpp:459-587 | in a controller cycle the count of transactions in flight stays the sum of queued, pending and writing ones, the addresses of pending reads stay those of all reads under way, and the abort for a missing transaction is not reached |
| Conservation.RanksKeepBalance | HBM2_PIM/src/MemorySystem.cpp:236-239 | reads that move from a rank to the controller are neither lost nor duplicated |
| Conservation.DeliveryKeepsBalance | HBM2_PIM/src/Rank.cpp:380-389 | the same for a READ that reaches its rank |
| Conservation.WritesKeepBalance | HBM2_PIM/src/MemoryController.cpp:473-525 | the same for write bursts on their way and on the bus |
| Conservation.IssueKeepsBalance | HBM2_PIM/src/MemoryController.cpp:169-303 | the same for a command that leaves its queue |
| Conservation.SchedulingKeepsBalance | HBM2_PIM/src/MemoryController.cpp:305-375 | the same for a transaction that becomes a command |
| Conservation.ReturnKeepsBalance | HBM2_PIM/src/MemoryController.cpp:538-577 | the same for a read that goes back to the processor, which always finds its transaction |
| Conservation.ReadIsPending | HBM2_PIM/src/MemoryController.cpp:546-572 | a returned burst has a pending transaction with its address |
| Conservation.InitiallyBalanced | HBM2_PIM/src/MemoryController.cpp:42-100 | all counts are zero at the start |
| Scheduling.RunIsSound | HBM2_PIM/src/CommandQueue.cpp:209-253 | over any sequence of arrivals and possible issues, conflicting packets leave in order of arrival, each packet at most once and none is lost |
| Scheduling.OvertakesExactly | HBM2_PIM/src/CommandQueue.cpp:222-246 | a packet may be issued from the queue if and only if no BAR packet waits before it, it is none itself unless first, and no packet before it is for the same bank, row and column |
| Scheduling.EnqueueKeepsSound | HBM2_PIM/src/CommandQueue.cpp:134-145 | an arrival keeps that |
| Scheduling.IssueKeepsSound | HBM2_PIM/src/CommandQueue.cpp:223-250 | so does issuing an entry that overtakes neither a fence nor an access to its cell |
| Scheduling.IssuedFirstArrivedFirst | HBM2_PIM/src/CommandQueue.cpp:223-250 | of two conflicting packets, the one issued first has arrived first |
| Scheduling.BarrierIsAFence | HBM2_PIM/src/CommandQueue.cpp:224-245 | a BAR packet leaves after everything that arrived before it and before everything that arrived after it |
| Scheduling.ReplayHasLastWrite | HBM2_PIM/src/Bank.cpp:92-133 | a cell holds the data of the last write in a replay |
| Scheduling.SameCellContents | HBM2_PIM/src/CommandQueue.cpp:209-253 | a cell holds the same in issue order as in order of arrival once all its earlier writes are out |
| Scheduling.ReadsAsInFifo | HBM2_PIM/src/CommandQueue.cpp:209-253 | every read gets the value that a strict replay in order of arrival would give it |
| Scheduling.DrainedAsInFifo | HBM2_PIM/src/CommandQueue.cpp:209-253 | a drained queue leaves memory as a strict replay does |
| Scheduling.ServeBank | HBM2_PIM/src/Bank.cpp:63-133 | through the linked lists of a bank, packets to ordinary rows in issue order give every read the value of a replay in order of arrival, and leave in the lists what the replay leaves |
| Scheduling.ServePacket | HBM2_PIM/src/Bank.cpp:79-133 | one packet of the replay, through the lists |
| QueueHistory.RunAnswers | HBM2_PIM/src/MemoryController.cpp:527-536 | in every run, the accesses that `pop` has given a rank are requests for it, each met at most once, none before it was made, the others still queued or waiting; no request is met across a barrier, requests for one cell are met in order, every read gets the data of execution in order of arrival, and once nothing waits the cells hold what such an execution leaves |
| ReadData.RunServes | HBM2_PIM/src/MemoryController.cpp:305-375 | in every run, each access that is issued serves a transaction that arrived before it: of its kind, with its data, at the rank, bank, row and column of its address; no two serve the same one, and those of one address, or two of which one is a barrier, are served in order of arrival; where different addresses lie in different places, an ordinary cell holds, at each access, what the last write transaction to that address before the one that is served has stored |
| ReadData.NoneIsLost | HBM2_PIM/src/MemoryController.cpp:305-375 | the transactions of a rank that have arrived are as many as the accesses issued, the packets queued and the transactions waiting together |
| ReadData.ActivateIsAskedFor | HBM2_PIM/src/CommandQueue.cpp:257-280 | a row is opened only at the place of the address of a transaction that has arrived before |
| ReadData.AskedIsStored | HBM2_PIM/src/MemoryController.cpp:347-361 | what was asked of a rank leaves in the cell of an address what its last write transaction stored |
| ReadData.GivenIsHeld | HBM2_PIM/src/MemoryController.cpp:347-361 | the accesses given to a rank leave in a cell the data of the last WRITE issued to it |
| Spacing.PrechargeWaits | HBM2_PIM/src/MemoryController.cpp:186-246 | in every run, a row is closed no sooner than WL + BL/2 + tWR after a WRITE of its bank is issued, AL + BL/2 + max(tRTPL, tCCDL) - tCCDL after a READ, and tRAS after it was opened |
| Spacing.ColumnWaits | HBM2_PIM/src/MemoryController.cpp:186-250 | a column access is issued no sooner than tRCDRD - AL or tRCDWR - AL after its row was opened, max(tCCDL or tCCDS by bank group, BL/2) after one of its kind in the rank, RL + BL/2 + tRTRS - WL after a READ or WL + BL/2 + tWTRL after a WRITE of it |
| Spacing.ActivateAfterRefresh | HBM2_PIM/src/MemoryController.cpp:266-276 | a row is opened no sooner than tRFC after a refresh of its rank, and tRP after its bank was closed or 1 + tRFC, whichever is less |
| Spacing.ActivateAfterActivate | HBM2_PIM/src/MemoryController.cpp:238-263 | two rows of a rank are opened no sooner one after the other than tRC, tRRDL or tRRDS, by bank and group, or max(1, tRAS) + 1 + tRFC, whichever is less |
| Spacing.ColumnOfOtherRank | HBM2_PIM/src/MemoryController.cpp:193-200 | accesses to different ranks are no closer than BL/2 + tRTRS, RL + BL/2 + tRTRS - WL or WL + BL/2 + tRTRS - RL, or one cycle more than the second needs after its own row is opened, whichever is less |
| SpacingRuns.PrechargeTimeExactly | HBM2_PIM/src/MemoryController.cpp:266-276 | over all runs, rows are opened at least tRP after their bank was closed if and only if 1 + tRFC is at least tRP |
| SpacingRuns.RefreshTimeExactly | HBM2_PIM/src/CommandQueue.cpp:178-203 | over all runs, a refresh comes at least tRP after a row of its rank was closed if and only if tRP is 1 |
| SpacingRuns.RowCycleExactly | HBM2_PIM/src/MemoryController.cpp:238-263 | over all runs, the rows of a bank are opened at least tRC apart if and only if max(1, tRAS) + 1 + tRFC is at least tRC |
| SpacingRuns.RowToRowExactly | HBM2_PIM/src/MemoryController.cpp:253-261 | over all runs, the rows of two given banks of a rank are opened at least tRRDL or tRRDS apart if and only if max(1, tRAS) + 1 + tRFC is at least that |
| SpacingRuns.RankGapExactly | HBM2_PIM/src/MemoryController.cpp:193-200 | over all runs and for each pair of kinds, accesses to different ranks are as far apart as the shared bus asks if and only if there is one rank or a row opened right after the first access lets the second one wait that long |
| SpacingRuns.OpensAfterRefresh | HBM2_PIM/src/MemoryController.cpp:272-276 | the run that closes a row, refreshes at once and opens a row when the refresh is over |
| SpacingRuns.AccessesBoth | HBM2_PIM/src/MemoryController.cpp:193-200 | the run that opens the row of one rank right after the access to another |
| Spacing.ReadyExactly | HBM2_PIM/src/CommandQueue.cpp:414-475 | with nothing else due, what follows a command in its rank is ready from the cycle of the bound of the two on |
| Spacing.OtherRankReadyExactly | HBM2_PIM/src/CommandQueue.cpp:414-475 | the same for an access to another rank that has its row open |
| Spacing.CommandFindsRow | HBM2_PIM/src/CommandQueue.cpp:435-475 | in every run, each column access and each PRECHARGE is for the row that the last ACTIVATE of its bank opened, with no refresh or other row command of the bank in between |
| Spacing.IdleAgain | HBM2_PIM/src/MemoryController.cpp:412-440 | a bank that is closed is closing for tRP cycles and then idle, one that is refreshed is refreshing for tRFC cycles and then idle, until a row command or refresh comes |
| Latency.ReadLatency | HBM2_PIM/src/Rank.cpp:478-510 | in every run, the burst of a READ issued in cycle t is on the data bus of its rank in the BL/2 cycles after t + 1 + RL, which end with its handing over |
| Latency.WriteLatency | HBM2_PIM/src/MemoryController.cpp:473-525 | in every run, the burst of a WRITE issued in cycle t is on the data bus in the BL/2 cycles after t + WL |
| QueueHistory.QueueHasHistory | HBM2_PIM/src/MemoryController.cpp:527-536 | in every state of every run, the queue of a rank has a history whose arrivals, followed by the commands of the transactions that wait, are all that was asked of the rank, in order, and whose issues are the accesses that `pop` has given it, in order |
| QueueHistory.PopIsHistory | HBM2_PIM/src/CommandQueue.cpp:236-250 | what `pop` does to the queue of a rank is a possible issue of the access that it gives |
| QueueHistory.SchedulingIsHistory | HBM2_PIM/src/MemoryController.cpp:305-375 | what is scheduled is the first request of its rank, and joins the end of its queue |
| QueueHistory.FirstOfItsRank | HBM2_PIM/src/MemoryController.cpp:309-350 | no transaction that is passed over is for the rank of the one that is scheduled |
| QueueHistory.CycleIsHistory | HBM2_PIM/src/MemoryController.cpp:459-587 | the same for a whole cycle |
| QueueHistory.BarrierIsAsked | HBM2_PIM/src/MemoryController.cpp:135-143 | a late barrier falls on what was asked last of its rank |
| BankModel.Bank.SearchForRow | HBM2_PIM/src/Bank.cpp:63-77 | the walk finds the node of a row exactly when the chain has one |
| BankModel.Bank.Read | HBM2_PIM/src/Bank.cpp:79-90 | a read gets what was last written to its cell, and leaves its buffer alone when nothing was |
| BankModel.Bank.Write | HBM2_PIM/src/Bank.cpp:92-133 | a write changes its own cell and no other, and is refused for a column that does not exist |
| BankModel.Bank.Insert | HBM2_PIM/src/Bank.cpp:105-118 | a new node at the head adds one row to one column |
| BankModel.Bank.Store | HBM2_PIM/src/Bank.cpp:119-131 | new data in a node that was found changes one row of one column |
| BankModel.LookupAfterStore | HBM2_PIM/src/Bank.cpp:119-131 | overwriting one entry changes what the chain says about its row only |
| CommandQueueModel.SuccessorIsOneCycle | HBM2_PIM/src/CommandQueue.cpp:517-551 | each step of the round robin moves one place on and the last place leads back to the first, for both policies |
| CommandQueueModel.TurnInjective | HBM2_PIM/src/CommandQueue.cpp:517-551 | different (rank, bank) pairs have different places, so the cycle visits each once |
| CommandQueueModel.CommandQueue.constructor | HBM2_PIM/src/CommandQueue.cpp:40-110 | the initial queue state |
| CommandQueueModel.CommandQueue.Enqueue | HBM2_PIM/src/CommandQueue.cpp:134-147 | a packet goes to the end of the queue of its rank |
| CommandQueueModel.CommandQueue.NeedRefresh | HBM2_PIM/src/CommandQueue.cpp:511-515 | one shared flag remembers the last rank that needs a refresh |
| CommandQueueModel.CommandQueue.ProcessRefresh | HBM2_PIM/src/CommandQueue.cpp:169-207 | something is issued exactly when a refresh waits and either no row is open, then REF and the wait is over, or some row may be closed, then the first such row |
| CommandQueueModel.CommandQueue.ServeRank | HBM2_PIM/src/CommandQueue.cpp:217-276 | serves the first entry that is ready and overtakes nothing, else opens a row for the first entry that needs one before the first fence, else is silent |
| CommandQueueModel.CommandQueue.ProcessCommand | HBM2_PIM/src/CommandQueue.cpp:209-286 | the first rank in round-robin order that is not silent is served; None only when all are silent |
| CommandQueueModel.CommandQueue.IsWanted | HBM2_PIM/src/CommandQueue.cpp:296-306 | whether an entry up to the first fence needs the open row |
| CommandQueueModel.CommandQueue.Advance | HBM2_PIM/src/CommandQueue.cpp:517-551 | the precharge pointer moves one place on in the cycle |
| CommandQueueModel.CommandQueue.ProcessPrecharge | HBM2_PIM/src/CommandQueue.cpp:288-321 | closes the first row in round-robin order that may be closed and that no entry is waiting for; None, with the pointer back where it was, only when no bank has such a row |
| CommandQueueModel.CommandQueue.AgeWindows | HBM2_PIM/src/CommandQueue.cpp:330-337 | one cycle of the activation windows |
| CommandQueueModel.CommandQueue.Pop | HBM2_PIM/src/CommandQueue.cpp:323-348 | a popped command is issuable, comes from the queue or from the state of the bank, and changes the queues accordingly; a refresh that can move goes first, then the first rank that is not silent, then an idle row; None only when nothing whatever can be issued |
| CommandQueueModel.CommandQueue.PopAged | HBM2_PIM/src/CommandQueue.cpp:339-347 | the same once the activation windows are a cycle older |
| Progress.StuckExactly | HBM2_PIM/src/CommandQueue.cpp:323-348 | with the clock past every deadline, positive limits and SB mode, nothing can be issued if and only if no refresh waits and every rank is blocked by a fence, or has an empty queue and all rows closed |
| Progress.RestsExactly | HBM2_PIM/src/CommandQueue.cpp:209-321 | a rank has nothing to serve, to open or to close if and only if its first fence, behind entries for other rows of one bank, wants the row open there and no other bank has a row open, or there is nothing to do |
| Progress.NeverStuck | HBM2_PIM/src/CommandQueue.cpp:323-348 | so `pop` returns a command while some packet waits in a queue that no fence blocks |
| BlockedRun.BlocksExactly | HBM2_PIM/src/CommandQueue.cpp:297-306 | some run ends, past all deadlines, with packets waiting and nothing that can be issued, if and only if a queue has room for a packet behind its head |
| BlockedRun.Play | HBM2_PIM/src/MemoryController.cpp:459-587 | the run: a row is opened and read, then a READ of another row of the bank waits and a late barrier wants the open row |
| BlockedRun.RunStaysBounded | HBM2_PIM/src/MemoryController.cpp:325-326 | no queue outgrows its depth in any run |
| Drain.QueuesDrain | HBM2_PIM/src/CommandQueue.cpp:323-348 | queues without barriers drain: with no refresh waiting and nothing arriving, they are empty after (work + 1) * (delays + 1) cycles, where work is 3 for a packet, 1 for a closed bank and 2 for an open row that no packet wants |
| Drain.CommandsWork | HBM2_PIM/src/CommandQueue.cpp:209-321 | every command that `pop` issues then leaves less work to do |
| Drain.StretchWorks | HBM2_PIM/src/CommandQueue.cpp:323-348 | in any stretch of cycles longer than the delays, something is issued or nothing waits |
| Drain.SilentIsDrained | HBM2_PIM/src/CommandQueue.cpp:323-348 | once the deadlines have passed, only empty queues leave `pop` without a command |
| Drain.RunIsClear | HBM2_PIM/src/MemoryController.cpp:169-288 | in every state of every run, all deadlines pass and all banks settle within the sum of the delays |
| Drain.Pop | HBM2_PIM/src/CommandQueue.cpp:323-348 | with no refresh waiting, `pop` serves an entry, opens a row for one, closes a row that none wants, or finds nothing that can be issued |
| Progress.RestIsBlocked | HBM2_PIM/src/CommandQueue.cpp:209-321 | a rank at rest with packets waiting is blocked by a fence |
| Progress.BlockedRests | HBM2_PIM/src/CommandQueue.cpp:209-321 | a blocked rank is at rest, whatever its deadlines |
| Progress.OnlyFencesWant | HBM2_PIM/src/CommandQueue.cpp:296-306 | where nothing can be served, a row is kept open by a fence behind the head or not at all |
| Progress.FirstHitIsServed | HBM2_PIM/src/CommandQueue.cpp:217-253 | an entry ahead of the fences whose row is open leads to an entry that can be served |
| Progress.RefreshMoves | HBM2_PIM/src/CommandQueue.cpp:169-207 | with the clock past every deadline a waiting refresh can always issue something |
| Progress.LimitsHold | HBM2_PIM/src/CommandQueue.cpp:428-468 | a limit on activations or row accesses that is reached holds its commands back |
| RankModel.Rank.constructor | HBM2_PIM/src/Rank.cpp:41-62 | the initial rank state |
| RankModel.Rank.CheckPacket | HBM2_PIM/src/Rank.cpp:117-199 | true exactly when no bank the command addresses forbids it: all banks for REF, one in SB mode, those of its parity otherwise |
| RankModel.Rank.UpdateBankStates | HBM2_PIM/src/Rank.cpp:201-314 | every bank gets the delays of the command, for either mode, as the pure update that `RankWaits` is about |
| RankModel.RankWaits | HBM2_PIM/src/Rank.cpp:201-314 | after a command to an ordinary row the rank rejects the next one until recovery, row, gap, turnaround, precharge or refresh time has passed, in the parameters themselves and for either mode |
| RankModel.Rank.WriteAbmr | HBM2_PIM/src/Rank.cpp:402-418 | opening the ABMR row on banks 0, 1, 8 and 9 turns all-bank mode on |
| RankModel.Rank.WriteSbmr | HBM2_PIM/src/Rank.cpp:437-449 | closing the SBMR row on banks 0 and 1 turns it off |
| RankModel.Rank.SendToBank | HBM2_PIM/src/Rank.cpp:376-476 | the return queue, the mode and its registers after a command |
| RankModel.Rank.ReceiveFromBus | HBM2_PIM/src/Rank.cpp:98-115 | the command is refused exactly when its row is ordinary and the check fails; reserved rows skip check and bank states |
| RankModel.Rank.Update | HBM2_PIM/src/Rank.cpp:478-518 | one cycle of the data bus and the return queue of the rank, and the packet it hands over |
| MemoryControllerModel.MemoryController.constructor | HBM2_PIM/src/MemoryController.cpp:42-100 | the initial controller state |
| MemoryControllerModel.MemoryController.ReceiveFromBus | HBM2_PIM/src/MemoryController.cpp:103-124 | a DATA packet joins the transactions to return |
| MemoryControllerModel.MemoryController.AddTransaction | HBM2_PIM/src/MemoryController.cpp:589-608 | a transaction is taken exactly when the queue has room, and is counted |
| MemoryControllerModel.MemoryController.AddBarrier | HBM2_PIM/src/MemoryController.cpp:135-143 | the transaction queued last becomes a barrier; false exactly when there is none |
| MemoryControllerModel.MemoryController.UpdateBankState | HBM2_PIM/src/MemoryController.cpp:412-440 | one tick of every countdown; banks become idle when it ends after REF or PRECHARGE |
| MemoryControllerModel.MemoryController.SetBankStatesRW | HBM2_PIM/src/MemoryController.cpp:152-156 | read and write deadlines only move later |
| MemoryControllerModel.MemoryController.SetBankStates | HBM2_PIM/src/MemoryController.cpp:158-167 | one bank changes its state; a countdown of 0 leaves the old one |
| MemoryControllerModel.MemoryController.DelayAllColumns | HBM2_PIM/src/MemoryController.cpp:187-206 | a READ or WRITE delays the columns of its own rank and of every open bank of the other ranks |
| MemoryControllerModel.MemoryController.DelayActivates | HBM2_PIM/src/MemoryController.cpp:258-267 | an ACTIVATE delays those of the other banks of its rank |
| MemoryControllerModel.MemoryController.RefreshRank | HBM2_PIM/src/MemoryController.cpp:277-282 | REF marks every bank of one rank |
| MemoryControllerModel.MemoryController.UpdateTable | HBM2_PIM/src/MemoryController.cpp:179-288 | the table after a command is that of the bank-wise specification, whose distances `Spacing` states |
| MemoryControllerModel.MemoryController.UpdateCommandQueue | HBM2_PIM/src/MemoryController.cpp:169-303 | the same with write data announced and the command bus taken; fails exactly when that bus is busy |
| MemoryControllerModel.MemoryController.UpdateTransactionQueue | HBM2_PIM/src/MemoryController.cpp:305-375 | the first transaction with room becomes a command, which goes where `ReadData.RunServes` says, and a read is remembered as pending |
| MemoryControllerModel.MemoryController.ReturnOne | HBM2_PIM/src/MemoryController.cpp:538-577 | the first pending read with the returned address is removed; fails exactly when there is none |
| MemoryControllerModel.MemoryController.UpdateDataBus | HBM2_PIM/src/MemoryController.cpp:473-525 | one cycle of the write path; fails exactly when a due burst finds the bus taken |
| MemoryControllerModel.MemoryController.UpdateRefresh | HBM2_PIM/src/MemoryController.cpp:442-453 | a countdown at 0 requests a refresh of its rank, restarts and moves on to the next rank; nothing changes otherwise |
| MemoryControllerModel.MemoryController.DeliverCommand | HBM2_PIM/src/MemoryController.cpp:461-471 | the command reaches its rank when its cycle is over; fails exactly when the rank rejects it |
| MemoryControllerModel.MemoryController.BeginCycle | HBM2_PIM/src/MemoryController.cpp:459-525 | the first half of a cycle |
| MemoryControllerModel.MemoryController.PopCommand | HBM2_PIM/src/MemoryController.cpp:527-531 | refresh and `pop`: the outcome is one that the machine admits, and only the queues change |
| MemoryControllerModel.MemoryController.PopAndIssue | HBM2_PIM/src/MemoryController.cpp:527-534 | refresh, `pop` and issue |
| MemoryControllerModel.MemoryController.Settle | HBM2_PIM/src/MemoryController.cpp:536-586 | transactions, returned reads and refresh countdowns |
| MemoryControllerModel.MemoryController.FinishCycle | HBM2_PIM/src/MemoryController.cpp:527-587 | the second half of a cycle |
| MemoryControllerModel.MemoryController.Update | HBM2_PIM/src/MemoryController.cpp:459-587 | a cycle of the object is a cycle of the state machine, with the outcome of `pop` among those the machine admits |
| MemorySystemModel.MemorySystem.constructor | HBM2_PIM/src/MemorySystem.cpp:132-148 | controller and distinct ranks in their initial states |
| MemorySystemModel.MemorySystem.AddTransaction | HBM2_PIM/src/MemorySystem.cpp:210-216 | a transaction that the controller has room for |
| MemorySystemModel.MemorySystem.AddBarrier | HBM2_PIM/src/MemorySystem.cpp:190-208 | a barrier is put exactly when the controller takes transactions and one waits |
| MemorySystemModel.MemorySystem.UpdateRanks | HBM2_PIM/src/MemorySystem.cpp:236-239 | every rank moves a cycle and hands its read data to the controller |
| MemorySystemModel.MemorySystem.StepClocks | HBM2_PIM/src/MemorySystem.cpp:249-255 | all clocks move together |
| MemorySystemModel.MemorySystem.Update | HBM2_PIM/src/MemorySystem.cpp:230-258 | a cycle of the objects is a cycle of the state machine that the runs are made of |
| Rounding.RoundedIsNearest | HBM2_PIM/lib/half.h:835-856 | guard and sticky bits decide correctly: `rounded` gives the half nearest to the exact value, ties to even, subnormals and overflow to infinity included |
| Rounding.NearestIsUnique | HBM2_PIM/lib/half.h:835-856 | there is only one nearest half |
| Rounding.NearestIsMonotone | HBM2_PIM/lib/half.h:835-856 | rounding keeps the order of values |
| Rounding.HalvesRoundToThemselves | HBM2_PIM/lib/half.h:835-856 | a value that is a half rounds to itself |
| Rounding.NeighboursDecide | HBM2_PIM/lib/half.h:835-856 | comparing with the two midpoints next to a half is enough for it to be nearest |
| Rounding.TooLarge | HBM2_PIM/lib/half.h:802-810 | values from 2^16 on round to infinity |
| Rounding.TooSmall | HBM2_PIM/lib/half.h:817-823 | values below half the least subnormal round to zero |
| HalfArithmetic.FixedToHalf | HBM2_PIM/lib/half.h:904-919 | a normalized fixed-point significand with a sticky bit becomes the half nearest to the value it stands for |
| HalfArithmetic.FixedIsNearest | HBM2_PIM/lib/half.h:904-919 | the same for the magnitude, over all exponents of the subnormal and normal range |
| HalfArithmetic.StickyShiftJams | HBM2_PIM/lib/half.h:2699-2703 | a right shift that ors the lost bits into the last one keeps every comparison that rounding makes |
| HalfArithmetic.Difference | HBM2_PIM/lib/half.h:2704-2709 | subtracting the shifted operand is exact or leaves enough bits for rounding |
| HalfArithmetic.Total | HBM2_PIM/lib/half.h:2710-2715 | so is adding it |
| HalfArithmetic.Normalize | HBM2_PIM/lib/half.h:2759-2762 | a subnormal operand is scaled to a full significand of the same value |
| HalfArithmetic.Multiply | HBM2_PIM/lib/half.h:2745-2773 | for all operands, NaNs and infinities included, the exact product rounded once to nearest even |
| HalfArithmetic.Divide | HBM2_PIM/lib/half.h:2783-2815 | for all operands, the exact quotient rounded once, with poles and invalid operations |
| HalfArithmetic.Add | HBM2_PIM/lib/half.h:2676-2720 | for all operands, the exact sum rounded once, with the sign of a zero sum |
| HalfArithmetic.FusedMultiplyAdd | HBM2_PIM/lib/half.h:2948-3018 | for all operands, x*y+z rounded once |
| HalfArithmetic.Finish | HBM2_PIM/lib/half.h:2767-2771 | overflow and underflow cut-offs agree with rounding |
| HalfArithmetic.MultiplyMagnitudes | HBM2_PIM/lib/half.h:2759-2771 | the finite case of the product |
| HalfArithmetic.DivideMagnitudes | HBM2_PIM/lib/half.h:2799-2813 | the finite case of the quotient |
| HalfArithmetic.AddNonzero | HBM2_PIM/lib/half.h:2694-2718 | the finite case of the sum: the larger magnitude first, sign of the exact result |
| HalfArithmetic.FuseFinite | HBM2_PIM/lib/half.h:2971-3016 | the finite case of the fused operation |
| HalfRoot.FixedRoot | HBM2_PIM/lib/half.h:1611-1625 | for every even F and every radicand below 4*2^F after the shift, m*m + r = R and r <= 2m, and the exponent is halved |
| HalfRoot.DigitOne | HBM2_PIM/lib/half.h:1616-1622 | a digit that fits keeps the recurrence |
| HalfRoot.DigitZero | HBM2_PIM/lib/half.h:1617-1618 | a digit that does not fit keeps it too |
| HalfRoot.SquareRoot | HBM2_PIM/lib/half.h:3379-3394 | for every half the root rounded to nearest even, and NaN or zero where the operand asks for it |
| HalfRoot.NearestRootIsClosest | HBM2_PIM/lib/half.h:3379-3394 | over the reals, no half is closer to the true root than the rounded one, which is even if another is as close |
| HalfConversion.Narrow | HBM2_PIM/lib/half.h:1028-1054 | double to half is the nearest half for every double that is not NaN, and a quiet NaN with the top payload bits otherwise |
| HalfConversion.Widen | HBM2_PIM/lib/half.h:1397-1414 | half to double is exact, with infinities, NaN payloads and signed zeros |
| HalfConversion.NarrowingIsMonotone | HBM2_PIM/lib/half.h:1028-1054 | narrowing keeps the order of doubles |
| HalfConversion.NarrowingUndoesWidening | HBM2_PIM/lib/half.h:1397-1414 | widening and narrowing gives back every half, NaNs quietened |
| TimingTree.CacheIsExact | HBM3_PIM/src/dram/node.h:105-159 | the cached clock of a node allows a command exactly when every constraint declared for its level holds against the whole issue history |
| TimingTree.Node.CheckReadyIsExact | HBM3_PIM/src/dram/node.h:180-194 | a command is ready along an address if and only if all declared constraints hold at every level down from the node that the address names, that has units, and that lies no deeper than the scope of the command |
| TimingTree.Node.IssueIfReady | HBM3_PIM/src/dram_controller/impl/hbm3_controller.cpp:104-116 | a command goes into the tree if and only if the query admits it, and the run stays one whose commands were all ready |
| TimingTree.WindowIsKept | HBM3_PIM/src/dram/node.h:133-148 | of a command constrained against itself with window w, any w+1 successive checked issues span at least the declared value |
| TimingTree.ScheduledWindow | HBM3_PIM/src/dram/node.h:133-148 | in a run whose commands were all admitted by the query, any w + 1 successive issues of a command into a node that it is checked at span at least the value of an entry with window w |
| TimingTree.ScheduledSpacing | HBM3_PIM/src/dram/node.h:105-148 | in such a run two commands are as far apart as every entry between them says, at each node that the later one is checked at, sibling entries included |
| TimingTree.HistoriesRemember | HBM3_PIM/src/dram/node.h:127-131 | the fixed-length history holds the latest issues at the node, newest first |
| TimingTree.HitsAreOrdered | HBM3_PIM/src/dram/node.h:127-131 | with clocks that do not decrease, issues at a node are in order |
| TimingTree.EntryAfterEvent | HBM3_PIM/src/dram/node.h:105-148 | what one more issue adds to the demands of one constraint |
| TimingTree.SiblingRaises | HBM3_PIM/src/dram/node.h:109-122 | the sibling branch raises the cached clock exactly by what sibling constraints demand |
| TimingTree.TargetRaises | HBM3_PIM/src/dram/node.h:133-148 | the target branch raises it exactly by what windowed constraints demand |
| TimingTree.Node.constructor | HBM3_PIM/src/dram/node.h:54-89 | a fresh tree agrees with the empty history at every node |
| TimingTree.Node.Children | HBM3_PIM/src/dram/node.h:73-88 | the children of a node, with disjoint subtrees |
| TimingTree.Node.RaiseFromSibling | HBM3_PIM/src/dram/node.h:109-122 | the loop over sibling constraints |
| TimingTree.Node.RaiseFromTarget | HBM3_PIM/src/dram/node.h:133-148 | the loop over windowed constraints |
| TimingTree.Node.Touch | HBM3_PIM/src/dram/node.h:105-148 | one node after one issue |
| TimingTree.Node.UpdateTiming | HBM3_PIM/src/dram/node.h:105-159 | after an issue the whole subtree agrees with the longer history |
| TimingTree.Node.UpdateChildren | HBM3_PIM/src/dram/node.h:155-158 | the recursion into the children |
| TimingTree.Node.Unaddressed | HBM3_PIM/src/dram/node.h:119-122 | a subtree that the recursion does not reach agrees with the longer history as it is |
| PimCommandModel.DecodingUndoesEncoding | HBM2_PIM/src/PIMCmd.cpp:27-147 | for every command whose fields fit, decoding the word gives back all fields that its kind has, over any stale fields |
| PimCommandModel.MoveRoundTrip | HBM2_PIM/src/PIMCmd.cpp:43-49 | the same for moves and fills |
| PimCommandModel.ComputeRoundTrip | HBM2_PIM/src/PIMCmd.cpp:50-66 | the same for arithmetic commands |
| PimCommandModel.JumpWord | HBM2_PIM/src/PIMCmd.cpp:36-39 | the fields of a jump do not overlap |
| PimCommandModel.KindBits | HBM2_PIM/src/PIMCmd.cpp:100-104 | the top four bits of an encoded word are the code of its kind |
| PimCommandModel.MoveWord | HBM2_PIM/src/PIMCmd.cpp:119-126 | each field of a move or fill is found at its place in the word |
| PimCommandModel.ComputeWord | HBM2_PIM/src/PIMCmd.cpp:128-140 | each field of an arithmetic command is found at its place in the word |
| PimCommandModel.BitsAt | HBM2_PIM/src/PIMCmd.h:170-182 | a field of a word is what a shift and a mask leave of it |
| PimCommandModel.PimCommand.constructor | HBM2_PIM/src/PIMCmd.h:74-87 | a fresh command is a NOP with every field zero except the flag the source leaves unset |
| PimCommandModel.PimCommand.FromInt | HBM2_PIM/src/PIMCmd.cpp:27-71 | fields of the kind are read from the word, the others keep their values |
| PimCommandModel.PimCommand.ToInt | HBM2_PIM/src/PIMCmd.cpp:73-147 | a move or fill into a bank that names a register file as a source has no word; the others have the encoded one |
| PimSequencerModel.StoredProgram | HBM2_PIM/src/PIMRank.cpp:330-330 | a program stored by `toInt` is the program that `fromInt` fetches |
| PimSequencerModel.FetchedWord | HBM2_PIM/src/PIMRank.cpp:326-395 | what each word is to the sequencer by its bits: code 15 exits, 14 jumps, 9 and auto arithmetic repeat once a block, 0 repeats its low 11 bits and one |
| PimSequencerModel.PimSequencer.ControlPim | HBM2_PIM/src/PIMRank.cpp:96-113 | the switches, and the reset of the registers when operation starts |
| PimSequencerModel.PimSequencer.TakeJump | HBM2_PIM/src/PIMRank.cpp:346-361 | the jump registers after a jump |
| PimSequencerModel.PimSequencer.CountRepeat | HBM2_PIM/src/PIMRank.cpp:364-395 | the repeat registers after a repeated command |
| PimSequencerModel.PimSequencer.Fetch | HBM2_PIM/src/PIMRank.cpp:326-330 | the fetched command is the one of the program |
| PimSequencerModel.PimSequencer.Execute | HBM2_PIM/src/PIMRank.cpp:362-410 | executing a command is a step of the machine |
| PimSequencerModel.PimSequencer.Round | HBM2_PIM/src/PIMRank.cpp:328-415 | one round of the loop is one step of the machine, and what is executed is the first of what is due |
| PimSequencerModel.PimSequencer.DoPim | HBM2_PIM/src/PIMRank.cpp:324-417 | one trigger terminates, executes exactly the next command that is due, and raises the exit flag only when nothing is left |
| PimSequencerModel.PimSequencer.Access | HBM2_PIM/src/PIMRank.cpp:116-142 | an access executes the next due command, if any, exactly in processing mode, before the EXIT, on a bank of a parity that is switched on, and on a row whose bit 13 is clear unless all rows count; else it changes nothing |
| PimSequencerModel.PimSequencer.Session | HBM2_PIM/src/PIMRank.cpp:96-142 | over a write of the control register and any accesses after it, each access executes the next command of the program, if one is left, when its bank parity bit of the control byte is clear and bit 2 is set or bit 13 of the row is clear; no other does, and none out of processing mode |
| PimSequencerModel.PimSequencer.Run | HBM2_PIM/src/PIMRank.cpp:324-417 | of any program that comes to an EXIT, n triggers execute exactly the first n commands that the machine executes, and the flag is raised once the program is over |
| PimLoops.UnrollsExactly | HBM2_PIM/src/PIMRank.cpp:346-361 | a program whose loops have something to execute comes to its EXIT, every loop executed once more than its counter says and everything else once, if and only if no loop contains a loop and each loop turns: its counter is 1, or its body has no jump without a counter, or the first of them is followed by such jumps only and leads to the head of the loop as well, or, with a counter of 2, further back over such jumps only |
| PimLoops.NestedLoopNeverExits | HBM2_PIM/src/PIMRank.cpp:348-360 | a loop that contains the jump of another loop is never left |
| PimLoops.TurningUnrolls | HBM2_PIM/src/PIMRank.cpp:326-416 | if no loop contains a loop and each turns, the program executes what it is meant to execute |
| PimLoops.AllTurn | HBM2_PIM/src/PIMRank.cpp:346-361 | a program that does so has no loop that does not turn |
| PimLoops.Budget | HBM2_PIM/src/PIMRank.cpp:356-360 | every lap costs one of the laps left, so no command of the body of a loop is executed more often than these allow |
| PimLoops.MustClose | HBM2_PIM/src/PIMRank.cpp:356-360 | a jump without a counter in a loop that is taken back more than once has to close the loop in place of its own jump |
| PimLoops.OneLap | HBM2_PIM/src/PIMRank.cpp:346-361 | a loop that turns executes its body once for every lap |
| PimLoops.LoopRunsCounterPlusOneTimes | HBM2_PIM/src/PIMRank.cpp:346-361 | a loop entered at its head is meant to run counter + 1 times |
| PimLoops.StraightThenRest | HBM2_PIM/src/PIMRank.cpp:362-410 | code that is no loop is meant to be executed once and in order |
| PimLoops.DoLeads | HBM2_PIM/src/PIMRank.cpp:364-395 | a repeated command is executed as often as it says |
| PimLoops.IdleJumpIsTaken | HBM2_PIM/src/PIMRank.cpp:356-360 | a jump without a counter in a loop that is taken back more than once is taken before the loop is left |
| PimLoops.ShortLoop | HBM2_PIM/src/PIMRank.cpp:346-361 | a program whose loop runs twice where its counter of 2 stands for three laps |
| PimLoops.LuckyLoop | HBM2_PIM/src/PIMRank.cpp:346-361 | the same program with another offset, which unrolls although the jump without a counter is taken |
| CsrModel.CooToCsr | GPU_CPU/SpMV/support/matrix.h:63-105 | row pointers start at 0, do not decrease and end at the number of entries, and every segment is the subsequence of its row in order |
| CsrModel.ProductIsUnchanged | GPU_CPU/SpMV/support/matrix.h:63-105 | the sparse product over the segments equals that over the coordinate entries |
| CsrModel.RowEntriesGiveProduct | GPU_CPU/SpMV/support/matrix.h:90-95 | the subsequence of a row gives the sum of that row |
| CsrModel.Histogram | GPU_CPU/SpMV/support/matrix.h:74-79 | counts the entries of every row |
| CsrModel.PrefixSum | GPU_CPU/SpMV/support/matrix.h:81-88 | turns counts into the number of entries in earlier rows |
| CsrModel.Bin | GPU_CPU/SpMV/support/matrix.h:90-95 | with row pointers as cursors, every entry lands in its place and cursors end where the next row begins |
| CsrModel.Restore | GPU_CPU/SpMV/support/matrix.h:97-101 | shifting back restores the beginnings |
| CsrModel.RestoreStaysInside | GPU_CPU/SpMV/support/matrix.h:97-101 | shifting back begins inside the row pointers if and only if there is a row, in 32-bit arithmetic |
| CsrModel.PlaceIsFree | GPU_CPU/SpMV/support/matrix.h:90-95 | the place of an entry lies in no segment of another row |
| CsrModel.NextRowBegins | GPU_CPU/SpMV/support/matrix.h:81-88 | a row begins where the one before it ends |
| AddressMappingModel.UnmappedMapped | HBM2_PIM/src/AddressMapping.cpp:86-227 | every aligned address below capacity is recovered from its place, in each scheme |
| AddressMappingModel.MappedUnmapped | HBM2_PIM/src/AddressMapping.cpp:86-227 | every place in range is the place of an aligned address below capacity |
| AddressMappingModel.MappedInRange | HBM2_PIM/src/AddressMapping.cpp:86-227 | the fields of any address are in range |
| AddressMappingModel.BankgroupIsRecovered | HBM2_PIM/src/AddressMapping.cpp:63-67 | in schemes 8 to 11 the bank group of the bank is the one cut from the address |
| AddressMappingModel.DigitsJoin | HBM2_PIM/src/AddressMapping.h:49-55 | cutting fields off a joined address gives the fields back |
| AddressMappingModel.JoinDigits | HBM2_PIM/src/AddressMapping.h:49-55 | joining the fields that were cut off gives the address back |
| AddressMappingModel.DiffBitWidth | HBM2_PIM/src/AddressMapping.h:49-55 | returns the low bits and shifts them out |
| AddressMappingModel.ULog2 | HBM2_PIM/src/Utils.h:22-35 | the least exponent whose power of two is not below the value |
| AddressMappingModel.Log2OfPower | HBM2_PIM/src/Utils.h:37-40 | on a power of two that exponent is exact |
| AddressMappingModel.AddrMapping.constructor | HBM2_PIM/src/AddressMapping.cpp:43-61 | the field widths of a power-of-two geometry |
| AddressMappingModel.AddrMapping.AddressMapping | HBM2_PIM/src/AddressMapping.cpp:74-242 | in each of the eleven schemes, every field is a slice of the address as wide as the field, right above the one that the scheme takes before it and above the bits of a burst; None where the simulator exits for an unknown one |
| AddressMappingModel.FieldsOfScheme | HBM2_PIM/src/AddressMapping.cpp:111-225 | the same as a fact about each scheme: its fields begin at these bits of the address |
| AddressMappingModel.SlicesJoin | HBM2_PIM/src/AddressMapping.cpp:174-177 | the two halves of a bank number are one slice |
| ClockDomainModel.ClockDomainCrosser.CallsAreExact | HBM2_PIM/src/ClockDomain.cpp:66-96 | after n updates the number of callbacks is ceil(n * clock1 / clock2), whatever resets lie behind |
| ClockDomainModel.ClockDomainCrosser.Update | HBM2_PIM/src/ClockDomain.cpp:66-96 | one update keeps the account of callbacks, and both counters within every common multiple of the clocks |
| ClockDomainModel.ClockDomainCrosser.CatchUp | HBM2_PIM/src/ClockDomain.cpp:78-89 | the inner loop terminates with the second counter at its first multiple from the first counter on |
| ClockDomainModel.ClockDomainCrosser.Meet | HBM2_PIM/src/ClockDomain.cpp:91-95 | counters that meet start over |
| ClockDomainModel.Run | HBM2_PIM/src/ClockDomain.cpp:66-96 | n updates from a fresh crosser: the exact number of callbacks, and counters within every common multiple, the least one included |
| SpmvTraceModel.BanksDoNotDecrease | HBM3_PIM/trace_gen/Macro_Benchmark/spmv_trace.py:179-186 | later rows go to the same or a later bank |
| SpmvTraceModel.BanksAreBalanced | HBM3_PIM/trace_gen/Macro_Benchmark/spmv_trace.py:179-186 | no bank gets more nonzeros than an even share plus the largest row |
| SpmvTraceModel.LoadFromShare | HBM3_PIM/trace_gen/Macro_Benchmark/spmv_trace.py:179-186 | what a bank holds fits between the beginning of its share and the end of its rows |
| SpmvTraceModel.BankAtPosition | HBM3_PIM/trace_gen/Macro_Benchmark/spmv_trace.py:45-55 | the bank number is recovered from its place in memory |
| SpmvTraceModel.BankBaseOf | HBM3_PIM/trace_gen/Macro_Benchmark/spmv_trace.py:44-54 | the address of a bank from the digits of its number, channel first |
| SpmvTraceModel.BanksAreApart | HBM3_PIM/trace_gen/Macro_Benchmark/spmv_trace.py:45-55 | the memories of different banks do not overlap |
| SpmvTraceModel.TraceGenerator.Generate | HBM3_PIM/trace_gen/Macro_Benchmark/spmv_trace.py:271-352 | every non-empty row is written exactly once, with its own values read from its own bank in order and exactly the bursts of x that it needs, every accumulation names its first value, partial sums move between barriers; counts of reads, accumulations and gathers; values numbered without gaps |
| SpmvTraceModel.TraceGenerator.Row | HBM3_PIM/trace_gen/Macro_Benchmark/spmv_trace.py:288-346 | the same for one row |
| SpmvTraceModel.TraceGenerator.Round | HBM3_PIM/trace_gen/Macro_Benchmark/spmv_trace.py:302-346 | the same for one chunk of a row |
| SpmvTraceModel.TraceGenerator.Accumulate | HBM3_PIM/trace_gen/Macro_Benchmark/spmv_trace.py:303-334 | a chunk adds exactly its values to the partial sum |
| SpmvTraceModel.TraceGenerator.Chunk | HBM3_PIM/trace_gen/Macro_Benchmark/spmv_trace.py:306-328 | one index read per value in cursor order, and its bursts of x |
| SpmvTraceModel.TraceGenerator.ReadIndex | HBM3_PIM/trace_gen/Macro_Benchmark/spmv_trace.py:307-319 | the cursor of a bank is the number of the next value |
| SpmvTraceModel.TraceGenerator.Gather | HBM3_PIM/trace_gen/Macro_Benchmark/spmv_trace.py:322-328 | a burst is loaded once a row under the cache policy, each time without it |
| SpmvTraceModel.SlotsAreBursts | HBM3_PIM/trace_gen/Macro_Benchmark/spmv_trace.py:312-327 | two columns share a slot of the cache if and only if they lie in one burst of eight |
| SpmvTraceModel.TraceGenerator.FlushIfDue | HBM3_PIM/trace_gen/Macro_Benchmark/spmv_trace.py:334-346 | a full batch or the end of the row flushes, and the end of the row writes the result |
| NpyModel.HeaderRoundTrip | HBM2_PIM/lib/npy.h:300-412 | for every supported header, parsing the printed text with any padding and a newline gives it back if the shape is not empty, and fails with the tuple error if it is |
| NpyModel.DictionaryIsParsed | HBM2_PIM/lib/npy.h:173-224 | the three values come out of the printed dictionary under any padding |
| NpyModel.KeysAreFound | HBM2_PIM/lib/npy.h:190-198 | each quoted key is found at its own entry and nowhere earlier |
| NpyModel.TupleIsSplit | HBM2_PIM/lib/npy.h:251-289 | a printed tuple splits into its numbers, the single-element one included |
| NpyModel.ItemsAreRead | HBM2_PIM/lib/npy.h:360-363 | the items are read back as the shape |
| NpyModel.StoulReadsDecimal | HBM2_PIM/lib/npy.h:360-363 | a printed number is read back, with or without a leading space |
| NpyModel.StoulReadsNumber | HBM2_PIM/lib/npy.h:360-363 | white space and one sign may come before a number, and anything but a digit after it; a minus wraps around at 2^64, and a larger number is an error |
| NpyModel.ValuesAreRead | HBM2_PIM/lib/npy.h:343-363 | the three texts are read back as the three values |
| NpyModel.TypesAccepted | HBM2_PIM/lib/npy.h:131-139 | a quoted type is accepted if and only if it has a byte order, a kind and at least one digit |
| NpyModel.HeaderTextIs | HBM2_PIM/lib/npy.h:366-372 | the printed text is a brace-enclosed list of three entries |
| NpyModel.PrintedHeaders | HBM2_PIM/lib/npy.h:366-372 | how either order and shapes of one and two dimensions are printed |
| NpyModel.ParseTuple | HBM2_PIM/lib/npy.h:251-269 | splits the text between parentheses at commas |
| NpyModel.WriteTuple | HBM2_PIM/lib/npy.h:271-289 | prints a shape, the empty one as nothing |
| NpyModel.ParseDict | HBM2_PIM/lib/npy.h:173-224 | values by key, or the error of the first missing key |
| NpyModel.ParseHeader | HBM2_PIM/lib/npy.h:300-364 | the header, or the first error |
| NpyModel.ReadShape | HBM2_PIM/lib/npy.h:360-363 | the numbers of a tuple, or an error |
| NpyModel.WriteHeader | HBM2_PIM/lib/npy.h:374-412 | prefix, length field and text together are a multiple of 16 bytes; the length field holds the length of the text exactly, in 16 bits for version 1; 1 to 16 spaces of padding; and what is written parses back to the header when its shape is not empty |
| NpyModel.LengthField | HBM2_PIM/lib/npy.h:392-409 | the little-endian bytes stand for the length whenever it fits them |
| NpyModel.Layout | HBM2_PIM/lib/npy.h:378-387 | version 2 is used exactly from 65014 characters of dictionary on, and the padding completes a multiple of 16 |

## Left out

HBM2 controller and ranks:
- Queues per rank and bank, which `pop` rejects; power-down; RFCSB; statistics, logs, energy and latency records; configuration parsing; builds without storage.
- The queue of pending transactions of `MemorySystem::addTransaction`: a transaction the controller has no room for is refused in the model, and taking it later is an arrival of its own; a barrier that would mark one of them is an arrival that is already a barrier.
- The delivery of write data to a rank: every rank accepts DATA packets and drops them (HBM2_PIM/src/Rank.cpp:167-168).
- Objects: the queue is handed the table of the controller and the modes of the ranks at each call, where the source shares references to them; the ranks' own unused flag for a waiting refresh is not kept.
- Guarantees from the activation windows and the cap on row accesses: the code counts neither.
- Liveness of refreshes beyond one call of `pop`: one flag serves all ranks. `Drain` is about the cycles between refreshes, and `BlockedRun` about what happens until the next one.
- ModeSwitch.SurvivesExactly: `SwitchFits` is asked again at the next switch; with one SBMR row already closed, the relation is shown to be enough but not to be necessary (no run enters all-bank mode like that, as `Runs.RunKeepsRegisters` shows); banks 0 and 1 of different bank groups are not decided in all-bank mode.
- SpacingRuns.RowToRowExactly: for queues with room for two packets; the other exact bounds are for queues with room for one. Refreshes come in these runs whenever the rank has no row open, and not only when a countdown asks for one.
- Spacing.ReadyExactly: for a command after which nothing else is due in its rank; the bounds themselves hold in every run.
- ReadData.RunServes: rows with bit 13 set hold registers and no data; a barrier that comes late is part of `QueueHistory.RunAnswers` instead; in all-bank mode a rank passes an access on to every bank of its parity, which is not followed there.
- RankModel.RankWaits: about the next command, not a later one; the controller keeps the distances over whole runs.
- SharedBus.ClashesExactly: the pops of the run that it plays, and of that of `BlockedRun.BlocksExactly`, are admitted by the queue, and refreshes do not come in between; it is for command queues with room for a packet.
- Runs.Simulate: stops before a switch that does not fit, and asks that the delays fit the shared bus.
- Data that travels with a read: the lists of a bank are modelled in `BankModel` and `Scheduling`, and a burst is a number; the PIM registers that SB reads of the register row return are left out.
- BankModel.Bank.Read: asks for a column that exists, which the code does not check before it indexes with it.

Half precision:
- Rounding modes other than to nearest even, exception flags, the builds that compute in `float` or with F16C instructions, and the conversions from and to `float`.
- Subtraction, which is addition with the sign flipped; the transcendental functions; streaming.
- HalfArithmetic.FixedToHalf: the instance without sign extraction and without the extra normalization step, the one that product, quotient and fused multiply-add use.

DRAM node tree:
- TimingTree.Node.IssueIfReady: one check and one issue; which request is tried is left to the caller, and so is the second command of a cycle.
- States, actions, prerequisites and row hits; the filling of the table from level and command names.
- Entries whose window is 0, which index a history out of bounds: `Spec.Valid` asks for a window of at least 1 of the entries that use theirs, those that are not sibling entries.

PIM:
- The data path of the processing blocks, their operand registers and the reads and writes of banks that go with a command; register zeroing.
- PimSequencerModel.PimSequencer.Session: for programs that come to an EXIT, as `Run`; the zeroing of registers that a write of the control register may ask for is left out.
- PimSequencerModel.PimSequencer.Run: for programs that come to an EXIT; a loop in a loop never does (`PimLoops.NestedLoopNeverExits`).
- PimLoops.UnrollsExactly: loops without a command to execute, jumps with a counter that lead forward or to before the program, and programs without EXIT are left out.

Algorithms:
- Reading matrix files.
- CsrModel.CooToCsr: at least one row, since the code counts down from `numRows - 1` in unsigned arithmetic and would run out of bounds with none.
- AddressMappingModel.AddrMapping.constructor: geometries of powers of two, as the schemes assume; addresses of any size, where the source keeps 64 bits.
- The constructor of the clock crosser that takes a ratio in floating point; wrap-around of its 64-bit counters.
- SpmvTraceModel.BanksAreBalanced: over exact fractions, where the script divides in floating point.
- The other trace generators, the limit of the trace emitter, statistics of tiles; addresses of commands are kept as bank, value index, channel, burst and row.
- NPY binary data, the magic string and the decoding of bytes; calls on empty strings, undefined in the source, are errors in the model, and the sort of the key positions is an insertion sort.
- NpyModel.LengthField: a dictionary of 2^32 bytes or more has its length cut to 32 bits, about which nothing is said.
