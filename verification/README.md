# Calypso bench: a verified model of the host side

The repository runs the DSP of the TI Calypso GSM chipset on an emulated C54x core. The DSP's own program is not
in it; what is there is the host code that drives the DSP: reference coders, the frame scheduler of the firmware's
layer 1, a replay of its synchronisation search, a job supervisor, the tracking of the uplink and of the dedicated
channel, the server the ARM side talks to, the rings through which bursts leave, and a log compactor. This project
models that host code in Dafny and proves what it is relied on for. `dafny verify dfyconfig.toml` checks everything.

Code that changes state step by step is written as methods and classes with the source's fields, arrays and loops;
each is proved equal to a specification function, and the properties are proved about that function, over every run
and every answer of the outside world. The outside world (DSP answers, `fork` and `wait`, file writes, messages,
callbacks) is a parameter or an oracle.

| module | what it models |
|---|---|
| `ConvolutionalCode`, `Interleaver`, `CellBursts` | the xCCH channel code, its interleaver, burst framing and the block cache |
| `Calendar`, `TdmaScheduler`, `ScheduleRuns` | an abstract calendar of bookings, the ring of 25 buckets that refines it, and what multiframe sets come to over whole runs |
| `DspPages` | the double-buffered W and R pages, hardware reset included |
| `FbsbReplay`, `FbsbReadings` | the replayed FB/SB acquisition on its 32-slot work list, and its runs told by what they read |
| `JobSupervisor` | slots, launcher and `wait` loop of the parallel runner |
| `ChannelFollower`, `UplinkFilter`, `KcPublisher`, `SpeechFormat` | the four stateful parts of the uplink tracking |
| `LockstepServer`, `PublishedRing`, `RomUplink`, `GsmTime` | the two-phase server, the shared rings, the burst collector, frame numbers and SB words |
| `LogCompaction`, `LogText` | the compactor, the cutter of oversized lines, and the text form read back |
| `Division`, `Hamming` | arithmetic and distance helpers |

## What the proofs say about the code

Points where the code does not do what its comments or its callers suggest. Each has a lemma with the exact condition or,
where the point is that something can happen, the run in which it does.

- The last response of the normal-burst set runs four frames after burst 0, not five: `tools/dsp_tester.c:411` subtracts 5
  and so never names the frame of burst 0, but the one before it, or none at all in the first five frame numbers of the
  hyperframe (`ScheduleRuns.NbTiming`, `ScheduleRuns.ReadingTiming`, `ScheduleRuns.TesterNamesTheFrameBefore`).
- Multiframe periods must divide 2715648: for any other period some entry misses its frame at the hyperframe wrap
  (`Calendar.MframeTiming`, `ScheduleRuns.FirstCommandTiming`).
- The remembered SDCCH is not always forgotten at a sync search: after a TCH was fully released the search is ignored,
  and the next return from a TCH goes to the old SDCCH. `ChannelFollower.RemembersTheLastSdcch` and
  `ChannelFollower.ReturnHandsOutTheLastSdcch` say exactly when, `ChannelFollower.StaleSdcchComesBack` gives a run.
  Under the TI firmware a wait for an uplink task survives re-entry to a TCH (`ChannelFollower.TchTaskStaysOnTch`,
  `ChannelFollower.TiWaitSurvivesReentry`).
- In the replay only two of the four retries have a budget: as long as every FB search detects within 10 kHz and no SB
  result ends the run, it goes on for ever (`FbsbReplay.MayGoOnForEver`, `FbsbReplay.GoesOnUnlessSpentOrDecoded`).
- The SB command is aimed eleven frames behind the FCCH, whichever response read the detection. Behind the last FCCH of a
  51-multiframe that is no SCH frame but the next FCCH, so there only the second of the two commands meets an SCH, and
  with REJEU_SB_UNIQUE none does (`FbsbReadings.SbLands`, `FbsbReadings.SbMeetsSch`).
- The duplicate table has four lines: a buffer is published once per posting if fewer than four others were looked at
  before it, at every look if not (`UplinkFilter.PublishedOncePerPosting`). No run with the three uplink buffers gets there
  (`UplinkFilter.FourBuffersArePublishedOnce`); one with five does (`UplinkFilter.FifthBufferIsRepeated`).
- A ring whose header lags behind its slots hands out less than its size. While slot writes succeed, the slot of a number
  is whole until the number N later is taken, announced or not, and gone from then on (`PublishedRing.LostAfterATurn`): after
  N header writes that fail in a row the header stands for a number whose slot is gone (`PublishedRing.AnnouncedSlotIsGone`).
  A slot written short is announced torn (`PublishedRing.TornSlotIsAnnounced`), and behind a slot that could not be written
  at all the next header announces what an earlier run left there, under the right number (`PublishedRing.OldSlotIsAnnounced`).
- The text of a compacted log restores it if no line has a count mark and no line that ends up in a group an opening mark
  (`LogText.CompactedTextIsLossless`). With either of them, two logs can have one text (`LogText.MarksAreAmbiguous`,
  `LogText.OpeningMarksAreAmbiguous`); a closing mark is harmless.

Two more conditions are exact in the contracts, but no caller in the repository meets them:

- A hardware reset by a callback, in a frame that started on W page 1 and announces its page, announces page 0 without
  the AFC value and with what an earlier frame left there (`DspPages.AnnouncedContent`). The one callback that resets,
  `fbdet_resp` (`tools/dsp_tester.c:185-205`), is alone in its bucket and carries no flag, so its frames announce nothing.
- `cellule_nb` uses frame 0xffffffff as its empty-cache mark and would hand out a burst of zeros if asked for that very
  frame first (`CellBursts.Cell.CelluleNb`). Every caller passes the start of a block, which is at least 2 modulo 51
  (`CellBursts.StartIsBlockStart`), and 0xffffffff is 0.

## Model

| member | source | states |
|---|---|---|
| ConvolutionalCode.ConvEncode | tools/cch_ref/cch_interleave_ref.py:48-55 | the loop fills every coded position with the parity of taps 0, 3, 4 (even) or 0, 1, 3, 4 (odd), at any length |
| ConvolutionalCode.CodedIsShiftEncoded | tools/cch_ref/cch_interleave_ref.py:45-55 | the indexed encoder equals a shift-register encoder defined on its own, for every input |
| ConvolutionalCode.OneBitMoves | tools/cch_ref/cch_interleave_ref.py:52-54 | the response to one input bit is 11 01 00 11 11 at its own place, whatever the rest of the input |
| ConvolutionalCode.DebtIsPaid | tools/cch_ref/cch_interleave_ref.py:45-55 | a potential on the 16 register states drops by no more than the ones a clock emits |
| ConvolutionalCode.PairDifference | tools/cch_ref/cch_interleave_ref.py:52-54 | the code is linear: two coded pairs differ by what the difference of the inputs emits |
| ConvolutionalCode.DistancePlusDebt | tools/cch_ref/cch_interleave_ref.py:45-55 | from the first difference on, the distance so far plus the potential never falls below 7 |
| ConvolutionalCode.DistanceWithoutTail | tools/cch_ref/cch_interleave_ref.py:45-55 | with no tail, two distinct inputs are 7 apart but for the potential of their last four bits |
| ConvolutionalCode.FreeDistance | tools/cch_ref/cch_interleave_ref.py:45-55 | distinct inputs of any length ending in four zeros have coded words at least 7 bits apart |
| ConvolutionalCode.FreeDistanceAttained | tools/cch_ref/cch_interleave_ref.py:45-55 | flipping any one information bit moves exactly 7 coded bits: the bound is tight everywhere |
| ConvolutionalCode.FourthTailBitIsNeeded | tools/cch_ref/cch_interleave_ref.py:49 | with three tail bits only, the last information bit is worth 5 coded bits |
| ConvolutionalCode.UniqueNearestCodeword | tools/cch_ref/cch_interleave_ref.py:45-55 | a word within 3 errors of one codeword is at least 4 away from all others |
| Interleaver.Chinese | tools/cch_ref/cch_interleave_ref.py:31-32 | a position can be found for any residues modulo 8 and 57 |
| Interleaver.ChineseUnique | tools/cch_ref/cch_interleave_ref.py:31-32 | and the residues determine the position within the block |
| Interleaver.IndexRoundTrip | tools/cch_ref/cch_interleave_ref.py:25-34 | the map k to index is injective into 0..455, with a closed inverse |
| Interleaver.SourceRoundTrip | tools/cch_ref/cch_interleave_ref.py:25-34 | and onto: every index is hit by the position the inverse names |
| Interleaver.FirstEightBits | tools/cch_ref/cch_interleave_ref.py:31-32 | where the first eight bits of a block go: bursts in turn, the first half of each pair first |
| Interleaver.EveryEighthBit | tools/cch_ref/cch_interleave_ref.py:31-32 | and every eighth bit after that: same burst, 100 positions on or 14 back, so that with the first eight the whole map is given |
| Interleaver.AirSpacing | tools/cch_ref/cch_interleave_ref.py:31-32 | how far apart, in the coded block, two bits of one burst come from |
| Interleaver.FwdMap | tools/cch_ref/cch_interleave_ref.py:27-34 | the built table lists k, burst, position and index for k = 0..455 in order |
| Interleaver.Interleave | tools/cch_ref/cch_interleave_ref.py:57-61 | output bit i is the input bit at the inverse image of i |
| Interleaver.Deinterleave | tools/cch_ref/cch_interleave_ref.py:63-67 | output bit k is the input bit at the image of k |
| Interleaver.DeinterleaveInverts | tools/cch_ref/cch_interleave_ref.py:57-67 | deinterleaving what was interleaved gives every block back |
| Interleaver.InterleaveInverts | tools/cch_ref/cch_interleave_ref.py:57-67 | and the other way round |
| Interleaver.InterleavingKeepsDistance | tools/cch_ref/cch_interleave_ref.py:57-61 | Hamming distance is unchanged by the interleaver |
| Interleaver.ThreeErrorsAreCorrectable | tools/cch_ref/cch_interleave_ref.py:45-67 | up to 3 errors on the air leave one nearest word, before and after deinterleaving |
| CellBursts.FramingInverts | tools/dsp_banc_commun.c:544-551 | the data halves of a framed burst are exactly its 114 interleaved bits |
| CellBursts.BurstLayout | src/cellule.c:203-207 | tails, flags, training sequence and data of a burst are where the standard has them |
| CellBursts.BancBurstNb | tools/dsp_banc_commun.c:544-551 | the framer of the bench, with its own table of training sequences, makes the same burst |
| CellBursts.TrainingIsCyclic | src/cellule.c:61 | every training sequence repeats after 16 bits |
| CellBursts.SameBurstIff | src/cellule.c:205 | two cells send the same burst of a block iff their BSICs are congruent modulo 8 |
| CellBursts.SiFollowEachOther | src/cellule.c:181 | SI1 to SI4 follow each other on the BCCH from one multiframe to the next |
| CellBursts.StartIsBlockStart | src/cellule.c:657-658 | the frame a block is traced back to is the start of its block, in the same multiframe, iff the frame lies in a broadcast block |
| CellBursts.Cell.CelluleNb | src/cellule.c:186-210 | cached or not, the burst is the recomputed one iff not (first call on frame 0xffffffff) |
| CellBursts.Cell.DataOfBlock | src/cellule.c:659-663 | the four bursts of a block carry its interleaved bits |
| CellBursts.CollectBlock | src/cellule.c:664-667 | the collecting loop is the deinterleaver |
| CellBursts.Cell.CelluleBlocAttendu | src/cellule.c:654-669 | from any frame of a broadcast block, the coded bits of the very L2 block the cell sends there; nothing elsewhere |
| Calendar.SetBooksAPrefix | tools/dsp_banc_commun.c:422-436 | a set books a prefix of what it asks for, each item in the frame of its end-of-frame count: all of it with the frame count, or up to the first full bucket with -1 |
| Calendar.OffsetsBelow25 | tools/dsp_banc_commun.c:411 | an offset names the frame that many ahead iff it is below 25 |
| Calendar.SetIsBookedInSequence | tools/dsp_banc_commun.c:422-436 | a set within the ring is booked frame after frame in its own order |
| Calendar.ExecuteKeepsTheBooks | tools/dsp_banc_commun.c:445-462 | running a frame moves bookings to run or dropped, none is lost or invented |
| Calendar.RunFromRunsWell | tools/dsp_banc_commun.c:456-460 | while callbacks book and reset under it, the loop runs the queue in order and each item at most once |
| Calendar.RunFromStopsAtRefusal | tools/dsp_banc_commun.c:456-460 | of the queue all items run up to the first whose callback refuses, that one included, and none after it |
| Calendar.FrameRunsByPriority | tools/dsp_banc_commun.c:445-462 | items booked before the frame run in nondecreasing priority, then those its callbacks added, up to the first refusal |
| Calendar.RunIsSound | tools/dsp_banc_commun.c:404-517 | over every run, at most 8 per frame and 25 frames ahead, and the books balance |
| Calendar.MframeTiming | tools/dsp_banc_commun.c:478-485 | the trigger test of a period agrees with the congruence of the next-but-one frame number over the whole hyperframe, wrap included, iff the period divides 2715648 |
| ScheduleRuns.SparedBookingsRun | tools/dsp_banc_commun.c:404-517 | from any reachable point, a booking with no reset before its frame and no refusal in it runs as often as it is pending or accepted, in its own frame |
| ScheduleRuns.EveryBookingRunsOnce | tools/dsp_banc_commun.c:404-517 | conservation: accepted = run + dropped + pending; each past booking that met no reset before its frame and no refusal in it ran exactly as often as it was accepted |
| ScheduleRuns.ClockOfRun | tools/dsp_banc_commun.c:490-491 | over any run the frame counter is the start plus the frames run, modulo 2715648 |
| ScheduleRuns.TakenInFull | tools/dsp_banc_commun.c:422-436 | a set is taken in full iff every frame has room for all the set asks of it |
| ScheduleRuns.AcceptedWhenTriggered | tools/dsp_banc_commun.c:478-485 | over any run from any sound ledger, one more booking of an item is accepted for a frame iff its set was triggered, and taken that far, that many frames before; never otherwise |
| ScheduleRuns.RunsWhenTriggered | tools/dsp_banc_commun.c:445-517 | if it was not booked before the run, it runs then, once, unless a reset or a refusal came in between, and in no other frame |
| ScheduleRuns.FirstCommandTiming | tools/dsp_banc_commun.c:478-517 | the first command of a set runs in frame t iff the frame number computed there for the next frame is congruent to the set's, and the bucket had room, for every period dividing 2715648 |
| ScheduleRuns.NbWishes | tools/dsp_tester.c:443-451 | the set asks for its eight items in the frames its end-of-frame marks give |
| ScheduleRuns.NbTrigger | tools/dsp_banc_commun.c:724-767 | a frame f in which the DSP reads command 0 comes two frames after a trigger that took it |
| ScheduleRuns.NbTiming | tools/dsp_tester.c:443-451 | from any sound ledger with none of the set's items booked, for every such f: f is congruent to the set's number, command b is read for the burst of frame f + b, response b runs in frame f + 1 + b |
| ScheduleRuns.ReadingOwnsTheSet | tools/dsp_tester.c:456-466 | the runs of `nb_lecture` meet what the timing results ask for: its set's items are booked by its entry only |
| ScheduleRuns.ReadingSpares | tools/dsp_tester.c:456-466 | and no reset or refusal can cost one of its bookings |
| ScheduleRuns.ReadingTiming | tools/dsp_tester.c:456-466 | such a run may start on any sound ledger that has none of the set's items booked and room for two more in each frame: for every period of at least 7 dividing 2715648, command 0 is read for exactly the bursts congruent to the set's number, and command b and response b follow at f + b and f + 1 + b |
| ScheduleRuns.PowerUpIsReady | tools/dsp_tester.c:456-466 | power-up is such a ledger |
| ScheduleRuns.TriggersAreSpaced | tools/dsp_banc_commun.c:481-483 | two triggers of an entry are at least a period apart, across the wrap |
| ScheduleRuns.NbTakenInFull | tools/dsp_tester.c:443-451 | with room for the whole set, all eight items are taken |
| ScheduleRuns.TesterNamesTheFrameBefore | tools/dsp_tester.c:411 | subtracting 5 in the frame of response 3 never gives the frame of burst 0, and gives the one before iff the number does not wrap |
| TdmaScheduler.RingAfterBooking | tools/dsp_banc_commun.c:413-420 | appending to one bucket is one more booking in the calendar, and a full bucket is a full frame |
| TdmaScheduler.RingAfterReset | tools/dsp_banc_commun.c:464-468 | emptying all other buckets drops exactly the bookings of other frames |
| TdmaScheduler.RingAfterExecution | tools/dsp_banc_commun.c:461 | emptying the current bucket ends the frame in the calendar |
| TdmaScheduler.RingAfterAdvance | tools/dsp_banc_commun.c:516 | turning the ring by one is moving the calendar by one frame |
| TdmaScheduler.SwapStep | tools/dsp_banc_commun.c:449-455 | one exchange of the index table keeps it a permutation and moves the least item forward |
| TdmaScheduler.Settle | tools/dsp_banc_commun.c:450-454 | one pass of the sort puts the least remaining item in place |
| TdmaScheduler.BucketSort | tools/dsp_banc_commun.c:447-455 | the index table ends up a permutation, nondecreasing in priority |
| TdmaScheduler.Scheduler.TdmaSchedule | tools/dsp_banc_commun.c:413-420 | one booking, or -1 and no change |
| TdmaScheduler.Scheduler.TdmaScheduleSet | tools/dsp_banc_commun.c:422-436 | the loop over a set is the calendar's booking of that set |
| TdmaScheduler.Scheduler.TdmaSchedReset | tools/dsp_banc_commun.c:464-468 | only the current frame's bookings survive |
| TdmaScheduler.Scheduler.RunItems | tools/dsp_banc_commun.c:456-460 | the loop whose bound grows under it runs the calendar's queue |
| TdmaScheduler.Scheduler.TdmaSchedExecute | tools/dsp_banc_commun.c:445-462 | the frame is executed in a priority order of what was due |
| TdmaScheduler.Scheduler.BancMframeAjouter | tools/dsp_banc_commun.c:473-476 | a 33rd entry is ignored |
| TdmaScheduler.Scheduler.MframeSched | tools/dsp_banc_commun.c:478-485 | every triggered entry, in order, books its set one frame ahead |
| TdmaScheduler.Scheduler.TdmaSchedAdvance | tools/dsp_banc_commun.c:516 | the ring turns, the calendar moves one frame |
| TdmaScheduler.Scheduler.L1Sync | tools/dsp_banc_commun.c:488-517 | one frame of the ring is one frame of the calendar |
| TdmaScheduler.Scheduler.BancCourir | tools/dsp_banc_commun.c:769-772 | any number of frames is a legal run of the calendar, to which conservation applies |
| DspPages.DspApi.PerformAction | tools/dsp_banc_commun.c:317-324 | a callback writes the current W page only, marks the R page used, or resets the hardware pages |
| DspPages.DspApi.EndScenario | tools/dsp_banc_commun.c:326-331 | the W page is announced and the other one becomes current |
| DspPages.DspApi.Sync | tools/dsp_banc_commun.c:488-517 | one frame of the page protocol, callbacks in the middle |
| DspPages.CallbacksLeaveTheAnnouncedPage | tools/dsp_banc_commun.c:317-331 | callbacks never write the announced page; they withdraw it iff one of them resets |
| DspPages.AlwaysApart | tools/dsp_banc_commun.c:488-517 | in every reachable state the announced page is not the one written next |
| DspPages.AnnouncedContentIsStable | tools/dsp_banc_commun.c:488-517 | an announced page keeps its content until the next announcement, or is withdrawn iff a reset came |
| DspPages.AnnouncedContent | tools/dsp_banc_commun.c:496-514 | an announced page holds the AFC value and this frame's writes in order, except after a reset on page 1 |
| DspPages.UsedPageIsClearedOnce | tools/dsp_banc_commun.c:508-512 | the current R page is cleared and swapped iff it was used; the other is untouched |
| FbsbReplay.Replay.PlanEntry | src/rejouer.c:209-214 | one entry appended; the 32 slots suffice for every caller |
| FbsbReplay.Replay.PlanFbSet | src/rejouer.c:241-246 | the command now and twelve responses from two frames later |
| FbsbReplay.Replay.PlanSbSet | src/rejouer.c:258-270 | one or two SB commands and as many responses |
| FbsbReplay.Replay.FbdetResp | src/rejouer.c:282-358 | misses, AFC correction, mode change, SB planning and giving up, and the list is the new plan or unchanged |
| FbsbReplay.Replay.SbdetResp | src/rejouer.c:372-563 | a bad CRC restarts only at the last attempt, a good one ends or restarts the search |
| FbsbReplay.Replay.Scan | src/rejouer.c:667-676 | one pass over a list replaced under it runs exactly the entry that was due |
| FbsbReplay.Replay.L1Sync | src/rejouer.c:646-678 | whatever the callbacks do, nothing due is left behind and 3 of the 8 passes are enough |
| FbsbReplay.Replay.Rejouer | src/rejouer.c:709-716 | the whole loop, for all answers, is a run of the machine on plans |
| FbsbReplay.DueIsUnique | src/rejouer.c:241-270 | a plan has at most one entry per frame |
| FbsbReadings.CommandsAreAnswered | src/rejouer.c:241-272 | an SB command is answered three frames on, an FB command by twelve responses from two frames on |
| FbsbReadings.SbLands | src/rejouer.c:318-352 | whichever of the twelve responses reads a detection within 800 Hz, the SB command goes out in frame b + 11 + n, n being the whole frames in the time of arrival, or as near to it as the next 20 frames allow |
| FbsbReadings.SbMeetsSch | src/rejouer.c:361-365 | the first SB command meets an SCH iff the FCCH was not the last of its multiframe, the second one iff it was |
| FbsbReadings.RunFollows | src/rejouer.c:280-356 | over every run, plan and mode after a frame are those its reading calls for, told without callbacks, attempts or delays |
| FbsbReadings.BudgetsCount | src/rejouer.c:283-317 | the two budgets count the searches missed and the coarse detections 10 kHz off or more |
| FbsbReadings.AfcFollowsTheError | src/rejouer.c:311-314 | a detection moves the AFC value by 34/287 of the error, toward it, cut to whole steps and to the DAC; nothing else moves it |
| FbsbReplay.TakenOut | src/rejouer.c:670-672 | taking the due entry out is moving the list one frame on |
| FbsbReplay.FreshPlan | src/rejouer.c:282-358 | a replaced plan can only be due now in its first entry |
| FbsbReplay.RunIsHealthy | src/rejouer.c:241-563 | in every run the counters match what happened and the plan is live |
| FbsbReplay.NeverStalls | src/rejouer.c:659-678 | after any frame without a verdict a response is planned within the next 23 frames |
| FbsbReplay.GivesUpOnBudget | src/rejouer.c:284-319 | the run gives up iff a fourth FB search failed or a 31st detection was off frequency |
| FbsbReplay.SucceedsOnDecode | src/rejouer.c:372-563 | the run succeeds iff some frame of it read an SB result that ends it |
| FbsbReplay.GoesOnUnlessSpentOrDecoded | src/rejouer.c:282-563 | the run goes on iff neither budget is spent and nothing was decoded |
| FbsbReplay.MayGoOnForEver | src/rejouer.c:316-356 | for all answers: detections within 10 kHz, in mode 1 off frequency or not, with SB results that do not end the run, never end it |
| JobSupervisor.Slots | src/multi.c:190-191 | the request, or the CPUs when there is none, or the jobs when they are fewer |
| JobSupervisor.LaunchKeeps | src/multi.c:219 | a launched job takes a free slot and the counters stay consistent |
| JobSupervisor.ForkFailureKeeps | src/multi.c:220 | a failed fork counts as finished and failed |
| JobSupervisor.ReapKeeps | src/multi.c:233-240 | a reaped job frees its slot and is counted once |
| JobSupervisor.FinishedCounts | src/multi.c:214-248 | when all have finished, every slot is free, every job has a status and the failures are the nonzero ones |
| JobSupervisor.RunningJobsHaveDistinctCpus | src/multi.c:192-218 | pinned jobs running together are on distinct CPUs |
| JobSupervisor.Supervisor.constructor | src/multi.c:180-211 | all slots free, nothing launched, pinned iff the slots fit the CPUs |
| JobSupervisor.Supervisor.Lancer | src/multi.c:128-174 | only the job's own record changes: pid and CPU, or status 127 |
| JobSupervisor.Supervisor.FreeSlot | src/multi.c:216-217 | the search stops at the first free slot and never overruns |
| JobSupervisor.Supervisor.Fill | src/multi.c:215-222 | stops only with every slot busy or no job left |
| JobSupervisor.Supervisor.SlotOf | src/multi.c:231-232 | the first slot running that pid, or none |
| JobSupervisor.Supervisor.Finish | src/multi.c:234-240 | status, slot and counters of one ended job |
| JobSupervisor.ToldOfEnd | src/multi.c:231-236 | the answer that ends a job gives its status as the shell does, and ends no other |
| JobSupervisor.EndedIffHeard | src/multi.c:224-240 | when pids are not given out twice at a time, a job has ended iff an exit or a kill with its pid was heard since its fork |
| JobSupervisor.FailedIffToldSo | src/multi.c:234-236 | a job that is done has failed iff its fork did, it was killed, or its code was not 0 |
| JobSupervisor.Supervisor.Reap | src/multi.c:224-240 | an exit or a kill with the pid of a running job ends that job, frees its slot and is counted once; any other answer changes nothing |
| JobSupervisor.Supervisor.MultiExecuter | src/multi.c:214-248 | for all forks and waits: each job launched once in order with the pid fork gave, each status 127 for a failed fork or that of a wait answer with the job's pid heard since its fork, no such answer passed over and none used twice; stopped by wait only at the first failure, waiting only with all answers used and when full or out of jobs; exact failure count at the end, no spinning |
| ChannelFollower.Follower.ScruterDcch | src/montant.c:559-652 | an announcement changes what the BSP was told and what is remembered as specified |
| ChannelFollower.Follower.Revenir | src/montant.c:655-670 | the remembered SDCCH, or a release |
| ChannelFollower.Follower.ScruterTch | src/montant.c:704-776 | TCH configuration, withdrawal and full release |
| ChannelFollower.Follower.SuivreTacheTch | src/montant.c:808-883 | the BSP follows the tasks the firmware posts |
| ChannelFollower.Follower.LibererSurSynchro | src/montant.c:1542-1559 | an FB or SB task releases an armed channel and the memory |
| ChannelFollower.FollowerAgrees | src/montant.c:559-883 | for every event sequence, armed iff the BSP was last told a channel, and on a TCH only when armed |
| ChannelFollower.BspIsToldTheRightChannel | src/montant.c:559-883 | over every run, an SDCCH the BSP is on is the remembered one, and a PDCH is on the timeslot last announced for it |
| ChannelFollower.TimeslotIsKnown | src/montant.c:704-883 | over every run, the TCH timeslot is that of the configuration, or else of the announcement or the TPU window that came first |
| ChannelFollower.AnnouncementIsTold | src/montant.c:559-652 | a new announcement is told to the BSP as it came, unless the firmware is on a TCH or it names one |
| ChannelFollower.TchTaskIsFollowed | src/montant.c:808-847 | a TCH task puts the BSP on the timeslot known, or that of the TPU window, and does nothing when there is neither |
| ChannelFollower.TchIsLeftWhen | src/montant.c:655-883 | the BSP leaves a TCH iff the channel is released, the TCH withdrawn, a block task posted, the uplink task of a TI wait posted, or a sync search seen |
| ChannelFollower.SyncSearchReleases | src/montant.c:1551-1557 | a sync search releases whatever channel the BSP was on |
| ChannelFollower.TiWait | src/montant.c:858-882 | the wait begun by a block task ends with the first uplink task, which brings the SDCCH back, or the first task more than 102 frames later |
| ChannelFollower.ReturnFromTch | src/montant.c:655-883 | every way off a TCH gives a release or exactly the remembered SDCCH |
| ChannelFollower.MemoryStep | src/montant.c:559-883 | one event keeps the memory right iff it is not a sync search on a released channel |
| ChannelFollower.RemembersTheLastSdcch | src/montant.c:559-883 | over every run, what is remembered is the SDCCH last announced since the last release or sync search iff no ignored search came since |
| ChannelFollower.ReturnHandsOutTheLastSdcch | src/montant.c:655-883 | a return from a TCH tells the BSP exactly that SDCCH, or a release if there is none, under the same condition, both ways |
| ChannelFollower.HowTheSdcchOutlivesTheChannel | src/montant.c:704-883 | the two events after which an SDCCH is remembered with nothing armed |
| ChannelFollower.StaleSdcchComesBack | src/montant.c:1551-1557 | from power-up, the run in which an SDCCH older than a sync search is handed out |
| ChannelFollower.TchTaskStaysOnTch | src/montant.c:808-883 | TCH tasks keep the BSP on the TCH iff no uplink wait meets an uplink task |
| ChannelFollower.TiWaitSurvivesReentry | src/montant.c:808-883 | from power-up, the run in which a TI wait throws the BSP off a TCH it re-entered |
| UplinkFilter.Unpack | src/montant.c:271-279 | speech blocks high byte first, L2 blocks low byte first, odd lengths included |
| UplinkFilter.UnpackUndoesToApi | tools/dsp_banc_commun.c:377-390 | reading a block undoes the firmware's writing of it, in both byte orders |
| UplinkFilter.Filter.PrendreUl | src/montant.c:251-291 | table and answer of one look |
| UplinkFilter.TableIsTrue | src/montant.c:263-290 | every table line tells its buffer's latest observation |
| UplinkFilter.FirstFourAreTracked | src/montant.c:263-266 | a buffer has a line of the table iff it was looked at and fewer than four others were before it |
| UplinkFilter.PublishedOncePerPosting | src/montant.c:251-291 | per buffer, the blocks published are its own observations destuttered, or all of them once four others were looked at before it |
| UplinkFilter.FourBuffersArePublishedOnce | src/montant.c:368-429 | up to four buffers, such as the three uplink buffers, are always destuttered and do not interfere |
| UplinkFilter.FifthBufferIsRepeated | src/montant.c:251-291 | the run in which a fifth buffer's block, posted once, is published twice |
| KcPublisher.KeyBytesInvertLoad | tools/dsp_banc_commun.c:366-375 | the published key bytes undo the firmware's word layout |
| KcPublisher.EncodedComparesBodies | src/montant.c:1115 | comparing bytes 4 to 31 compares algorithm and key |
| KcPublisher.RecordReadsBack | src/montant.c:1096-1150 | a reader of the 32 bytes gets number, algorithm and key back |
| KcPublisher.BodiesReadBack | src/montant.c:1109-1113 | a poll gives a record with modes 1 to 3 and a key that is not all zero, else the clear one |
| KcPublisher.FileIsOpen | src/montant.c:1141-1153 | over every run the file is open iff the last record tried was written |
| KcPublisher.PollAndFile | src/montant.c:1141-1153 | only an open that fails stops the publisher |
| KcPublisher.Publisher.BuildBody | src/montant.c:1096-1113 | the record built in place is the encoding of mode and key, clear unless both are set |
| KcPublisher.Publisher.WriteRecord | src/montant.c:1141-1152 | seq moves only with a successful write |
| KcPublisher.Publisher.CanalLibere | src/montant.c:1755-1759 | a channel release only makes a release pending |
| KcPublisher.Publisher.PublierKc | src/montant.c:1070-1163 | one poll: skipped, matched, waiting, published or not written |
| KcPublisher.RunIsOrderly | src/montant.c:1070-1163 | over every run consecutive records differ, and their numbers count publications |
| KcPublisher.ReturnToClear | src/montant.c:1134-1137 | a return to clear is published iff a release is pending or four evaluated polls already waited |
| KcPublisher.CipheringIsPublishedAtOnce | src/montant.c:1092-1096 | a change of mode is published by the first poll that sees it, with the right key |
| KcPublisher.NewKeyWithinAPeriod | src/montant.c:1092-1163 | any new ciphering record, the first one or a new key under the same mode included, is published by the poll that ends the period, at most the 22nd, and by none before |
| KcPublisher.ReleaseIsConsumed | src/montant.c:1115-1139 | a pending release ends with the next poll |
| SpeechFormat.MettreBitMsb | src/montant.c:302-307 | one bit changes, all others stay |
| SpeechFormat.ShiftedByNibble | src/montant.c:324-326 | the byte loop puts the 260 bits behind the nibble 0xd |
| SpeechFormat.ParoleTiVersFr | src/montant.c:315-327 | in place, the TI block becomes the standard frame with the same speech bits |
| SpeechFormat.TiFromCanon | src/montant.c:1194-1198 | the TI layout is filled around its gap, which stays clear |
| SpeechFormat.ProtheseParoleDl | src/montant.c:1183-1205 | posted iff the mode asks for it; then words 3 to 19 hold the same speech bits, and only the named header bits change |
| SpeechFormat.FrTiFr | src/montant.c:302-327 | FR to TI to FR is the identity iff the frame starts with 0xd |
| SpeechFormat.TiFrTi | src/montant.c:1190-1202 | TI to FR to TI clears the gap bits 182 to 185 and keeps all others |
| LockstepServer.Server.AttendreGo | src/pont.c:2436-2446 | the wait keeps the last RESET and ignores everything else |
| LockstepServer.Server.SecondPhase | src/pont.c:2477-2496 | one more DONE, before or after the rest of the frame |
| LockstepServer.Server.Reagir | src/pont.c:2306-2434 | what a message does up to the wait |
| LockstepServer.Server.Servir | src/pont.c:2282-2850 | for every sequence of arrivals the server does exactly what the message-by-message specification says |
| LockstepServer.EverySession | src/pont.c:2282-2496 | between two messages of the main loop the log is exactly one complete turn; only the last can be waiting |
| LockstepServer.EveryTurnIsProper | src/pont.c:2301-2683 | in every session, event by event: what follows a TICK in single phase, the two halves, the DONEs and the last RESET of a two-phase frame, what a RESET and an announcement lead to, and nothing else |
| LockstepServer.EveryMessageIsTaken | src/pont.c:2294-2310 | every message is taken once, in order, until the peer is gone or says BYE outside a frame |
| LockstepServer.DonesOfATurn | src/pont.c:2434-2683 | two DONEs for a served two-phase TICK, one in single phase, none otherwise |
| LockstepServer.PhaseBFollowsGo | src/pont.c:2443-2481 | the second half starts right after a GO and nowhere else |
| LockstepServer.DeferralReorders | src/pont.c:2282-2296 | the session is seen as if each RESET of a wait had come once, after the GO of its frame |
| LockstepServer.StraightenedIsStraight | src/pont.c:2437-2446 | in that reordered session nothing comes between a two-phase TICK and its GO |
| PublishedRing.SlotOfStamp | src/pont.c:871 | the slot computed from the wrapped 32-bit counter is that of the true count |
| PublishedRing.WrapIsSeamless | src/pont.c:871 | slots succeed each other across the wrap iff the size divides 2^32 |
| PublishedRing.SlotHolds | src/pont.c:865-872 | the slot of a number that was written to carries its stamp iff the write was complete and no later number wrote there; then the load is its own |
| PublishedRing.Ring.WriteSlot | src/pont.c:865-872 | the slot of the number is torn, then whole; no other slot changes; both instants are on the trail |
| PublishedRing.Ring.FailSlot | src/pont.c:865-872 | the number is taken; its slot is torn or as it was, no other changes |
| PublishedRing.Ring.Publier | src/pont.c:857-873 | for every outcome of the two writes the region is that of the run so far: what the one slot holds, the others unchanged, the header last, and every instant a reader can see |
| PublishedRing.TrailIsExplained | src/pont.c:857-873 | at every instant of every run, slots and header are those of the numbers done, but for one torn slot or a header one write behind |
| PublishedRing.ReaderFinds | src/montant.c:231-234 | at any instant, in the slot of any number done: its stamp iff it was written whole and no number taken since wrote there |
| PublishedRing.LostAfterATurn | src/pont.c:871-872 | while slot writes succeed, headers or not, the slot of a number is whole iff fewer than N numbers were taken since |
| PublishedRing.ReaderGetsWholeBlocks | src/montant.c:231-234 | a reader that takes the header, then later a slot, finds a number written whole iff no later number has written there |
| PublishedRing.LastOnesAreWhole | src/pont.c:857-873 | at every instant of a run without failures the last N-1 numbers up to the header are whole |
| PublishedRing.AnnouncedSlotIsGone | src/pont.c:872 | one publication, then N whose header fails: number 1 is announced and its slot holds number N+1 |
| PublishedRing.TornSlotIsAnnounced | src/pont.c:872 | one slot written short: number 1 is announced and its slot is torn |
| PublishedRing.OldSlotIsAnnounced | src/pont.c:859-872 | a slot write that fails, then a publication: number 1 is passed off with what an earlier run left |
| RomUplink.EachBitOnce | src/pont.c:1270-1277 | the 114 data bits and the two flags of the words are read once each |
| RomUplink.StringIsBigEndian | src/pont.c:1275 | the bits of the eight words are read as one string, the highest bit of each word first |
| RomUplink.FramedIsTheString | src/pont.c:1270-1277 | the two data halves of a burst, joined, are the first 114 bits of that string, and its flags the last two |
| RomUplink.FourPassesGiveABlock | src/pont.c:1264-1290 | a pass of the pointer over the four burst areas gives their bursts and streams in order, whatever came before |
| RomUplink.MaskFollows | src/pont.c:1266-1281 | the mask tells at each capture whether a block is open and what it has; it is full at burst 3 iff the block is complete |
| RomUplink.CompleteBlockIsOfOneGo | src/pont.c:1266-1281 | the latest bursts 0 to 3 of a complete block all follow the latest burst 0 |
| RomUplink.RomUplink.Store | src/pont.c:1269-1277 | the copy loop replaces one burst and leaves the other three |
| RomUplink.RomUplink.TxRomPublier | src/pont.c:1250-1292 | a block leaves iff bursts 0, 1, 2 were captured since the latest burst 0 with no 3 or stray pointer between, and it holds the latest captures |
| GsmTime.SuperframePosition | src/pont.c:694 | T2 and T3 determine the position in the superframe |
| GsmTime.VersionsAgree | tools/dsp_tester.c:87-90 | the formulas of the three files agree on all times that fit the fields, and none wraps |
| GsmTime.SplitIsInverted | src/pont.c:692-695 | every formula gives every frame number back from its T1, T2, T3 |
| GsmTime.EncodersAgree | src/cellule.c:217-225 | byte encoders and word encoder give the same 25-bit word |
| GsmTime.FieldsInARow | src/cellule.c:217-225 | three bytes and one bit are BSIC, T1, T2 and T3' in a row |
| GsmTime.DecodersAgree | src/pont.c:927-931 | the decoders extract the same fields from every word |
| GsmTime.FieldsComeBack | tools/dsp_tester.c:310-317 | decoding takes the encoded fields apart again |
| GsmTime.SbRoundTrip | src/rejouer.c:518-524 | every decoder returns the BSIC always, and the frame number iff the frame carries an SCH |
| LogCompaction.LineIsWoven | tout-en-un.py:174-193 | a NUL-free line is its key with its numbers put back |
| LogCompaction.KeyIsDigitErased | tout-en-un.py:174-188 | keys hold no digit, numbers are nonempty runs of digits, and two numbers never touch |
| LogCompaction.VariesWhenTwoDiffer | tout-en-un.py:190 | a column varies iff two lines of the run differ in it |
| LogCompaction.FillingWeaves | tout-en-un.py:191-206 | filling the template with a line's tuple gives the woven line |
| LogCompaction.PackedIsLossless | tout-en-un.py:182-206 | one group expands to its run |
| LogCompaction.CompactionIsLossless | tout-en-un.py:170-215 | every NUL-free log comes back at every threshold |
| LogCompaction.GroupsAreMaximalRuns | tout-en-un.py:173-182 | each group is a maximal run of one key no shorter than the threshold, each kept line is in a shorter one, in order and without gap |
| LogCompaction.EachOutputIsRight | tout-en-un.py:173-182 | the same of any one output: by its position it is a maximal run, or a kept line of a short one |
| LogCompaction.Gabarit | tout-en-un.py:191-202 | the loop over the pieces builds the template, and counts holes iff a column varies |
| LogCompaction.Grouper | tout-en-un.py:182-206 | the branches for exact repetition, constant numbers and varying numbers all give the specified group |
| LogCompaction.FinDeRun | tout-en-un.py:174-177 | the inner loop stops at the first line with another key |
| LogCompaction.Compacter | tout-en-un.py:170-215 | the nested loops: output expands to the input, groups are maximal runs, the count is that of the groups |
| LogText.TemplateReadsBack | tout-en-un.py:191-202 | filling a template from its text fills it |
| LogText.ValuesReadBack | tout-en-un.py:205-213 | however the lines of values wrap, the tuples are read back and what follows is untouched |
| LogText.ValuesAreWrapped | tout-en-un.py:205-213 | no line of values is longer than 110 characters unless one tuple alone is, and none is ended before the next tuple would not fit |
| LogText.GroupReadsBack | tout-en-un.py:203-213 | header, count and values of a group give its lines back |
| LogText.CompactedTextIsLossless | tout-en-un.py:170-215 | for every threshold, the text restores the log if no line has a count mark and no grouped line an opening mark |
| LogText.MarksAreAmbiguous | tout-en-un.py:203 | with a count in the log itself, two logs have one text |
| LogText.OpeningMarksAreAmbiguous | tout-en-un.py:197 | with an opening mark in a grouped line, two logs have one text |
| LogText.LignesDeValeurs | tout-en-un.py:207-213 | the wrapping loop |
| LogText.CompacterTexte | tout-en-un.py:170-215 | the text returned is that of the specified groups, and restores the log under the same condition |
| LogCompaction.CutFromIsJoined | tout-en-un.py:164-167 | the pieces of an oversized line join to it, whatever follows |
| LogCompaction.CuttingIsLossless | tout-en-un.py:164-167 | cutting a whole log can be undone from the pieces alone, marks in the text included |
| LogCompaction.PiecesAreMarked | tout-en-un.py:164-167 | every piece but the last has the full length and the mark, the last is no longer than the limit |

## Left out

- The C54x core, DMA, BSP, A5 and the libosmocoding and libosmocodec bodies: the channel encoder is a function from L2 block to 456 bits, the speech bit order any permutation of 0..259, the DSP's answers oracles.
- All floating-point signal work, probes, traces, journals and statistics.
- Sockets, shared memory and files as such: messages, torn slots and failed writes are modelled; opening and sizing a file, the handshake and signals are not.
- Environment switches: fixed at their defaults, except the TI firmware, the SB command count and stop conditions of the replay, PONT_DONE_TOT, the mode of the downlink speech prosthesis and the compaction threshold. So CELLULE_NB_REPEAT, a forced training sequence, REJEU_SB_FORCE and MONTANT_CONSOMME_BLUD are out, and a line limit below 1, which loses lines.
- Headers outside the repository: the block flag of a buffer is a parameter; `calypso_api.h` is not part of this model.
- TdmaScheduler.BucketSort: items of equal priority may change order, as in the source's exchange sort, so no order among them is stated.
- The hook after the items of a frame: whether a frame announces its page is an input of `DspPages`, and `ScheduleRuns` takes it from the flags of the items run.
- Callbacks of the scheduler are sequences of bookings, sets and resets with a return code, chosen by an oracle from the item run and its position in the frame.
- The page pointers inside the replay's own frame step follow `DspPages` with every frame announced and no hardware reset, and are not modelled again there.
- FbsbReplay.AfcCorrect: the overflow of the frequency product is not modelled, an answer's frequency is any integer.
- GsmTime.SbRoundTrip: BSIC above 63 comes back masked to six bits, as the encoders mask it.
- PONT_DCCH as a second source of channel changes for the follower: `ChannelFollower` has the inputs of its own file; `LockstepServer` only logs the message.
- The half-rate speech format, the FACCH prostheses and the RACH, SDCCH window and SACCH publishers.
- PublishedRing.Ring.Publier: a write of the four header bytes is all or nothing; a header written in part is not modelled.
- The 184 information bits returned beside the coded block, which only unpack the L2 block.
- Which characters are digits is a parameter of the compactor; for the text form no digit may be a comma or a closing parenthesis.
- The copies between bytes and API words: each call moves its own words and keeps nothing. The power-on sequence, the power-measurement floors and the canned results depend on DSP code that is not in the repository, so there is no behaviour to state.
