# Verified kernels of the ClearML agent

The agent pulls tasks from queues, hands out GPUs or pods, launches the work, watches it and reports its
logs. Most of it is input and output; this project models the parts that decide something and proves what
they guarantee. Each module follows one component. Where a component works by changing things in place,
the model is a method or a class, proved equal to a specification function; the properties are then proved of
that function, over every input or over every run.

| module | component |
|---|---|
| `GpuNames` | the names under which dynamic-GPU children register, and how they are read back |
| `GpuTally` | what is free: registered workers, local reservations, the daemon's ledger |
| `GpuGrant` | one pull: the gate, the choice of GPUs or of a fraction, the slice letters |
| `GpuStacks` | which fractions can lie on one GPU, and what room they leave |
| `GpuProtocol` | daemon, children, server list and clock as a protocol; what every step keeps |
| `GpuReach` | the order in which the slices of a GPU can have been launched, over every run |
| `GpuRuns` | runs that reach every such order |
| `GpuSafety` | the exact condition under which no GPU is handed out twice |
| `GpuLoop` | one turn of the polling loop over the queues |
| `LogEvents` | chunking lines into events, packing events into packets, posting them |
| `LogRelay` | the per-source retry buffer of the log lines |
| `StopSignal` | the polled stop monitor: reset counter and abort-callback wait |
| `GlueQueues` | the Kubernetes glue's queues: pull, pending queue, re-enqueue at the front, priority |
| `GluePods` | pod numbers and pod limits |
| `DockerArgs` | filtering and merging docker arguments |
| `Trees` | recursive merge and recursive change set |
| `LayeredConfig` | layered configuration reload |
| `InstanceSlots` | slots of agent processes on one machine |
| `ContainerRules` | the default-container rulebook |

Main results, hardest first:

- When no GPU is handed out twice in any run of a daemon with given queues (`GpuSafety.SafeExactlyWhen`):
  exactly when three conditions hold. A child's registration deadline plus the age of the server's worker list
  stays below the reservation TTL, or no queue can be served at all; no list of pulls of the queues leaves a GPU
  with room for the minimum of a queue but not for its maximum, and with at least an eighth; and none puts 27
  slices of one size on a GPU. Every way of missing a condition comes with a run: a GPU given twice, more than a
  whole GPU given, or two live children of the same name. Safety is about what the children were given, not
  about their names; the server's answer is a list of worker id texts, and what the daemon decodes from them is
  proved to be what the children hold.
- The same conditions, with an eighth or less, say exactly which daemons reach the shrink-to-fit branch and which
  leave a slice without a letter in some run. The branch grants a whole GPU of which less is free: line 1807 of
  `worker.py` divides the share by itself, so it yields 1.0 and not the eighths its comment speaks of. A single
  queue of 0.25-0.75 is unsafe with every margin, one of 0.5-0.75 is safe with the margin.
- Packing and chunking are the only ways to cut the same input under their rules, so the packets are determined by
  the text alone.
- The retry buffer of the log loses and repeats no line of the sends that it takes for successful. The server has
  every text exactly once if no answered post registers fewer events than it was sent and no post fails after an
  earlier one of the same send got events registered; with exactly one of the two faults it never has.
- `TaskStopSignal` reports a reset exactly after four earlier sightings; the abort wait starts once and ends by its
  timeout.
- A quota rejection restores the source queue exactly under a stated condition, and while the rejected task waits
  nothing is pulled from lower-priority queues. Its log names each change of the reason once exactly when it is not
  pulled again after the table of reasons was emptied.
- The docker filter splits a list into complementary parts exactly when no positional token follows a switch that
  carries its value with `=` (or the fast path is taken).
- Sending only the change set is enough exactly when no null value is left out of it.
- A configuration reload is idempotent although it starts from its own last result, and the layer that decides a leaf
  is determined exactly.

Properties the code does not have, each with its exact condition: one GPU given twice, by a late registration,
by a shrunk pull, or by two slices with the same bare name; a reservation of a MIG slice booked on another key
than the worker is counted on; grants below the minimum when the bounds of a queue are out of order; an index
error for a fraction as maximum with several GPUs as minimum; lines lost when output files are not truncated and
a send is not complete; an empty include set that filters nothing; a merged command whose entrypoint switch
takes the next token as its value; a null update dropped from the change set; override values that stay after
the overrides are replaced; a reason logged again for a task that was forgotten. For the text of the retry
buffer the condition is exact unless both faults occur; then one can make up for the other, as a run shows.

Conventions: fractions of a GPU and times are exact reals; dictionaries whose order matters are sequences with
distinct keys; what comes from outside (server answers, clocks, regular expressions, JSON encoding, version
comparison) is a parameter.

## Model

| member | source | states |
|---|---|---|
| GpuNames.ParseSlot | clearml_agent/commands/worker.py:1944-1963 | an entry is accepted only as the text of a well-formed slot |
| GpuNames.ParseText | clearml_agent/commands/worker.py:1944-1963 | every well-formed slot is recognised from its text; with ParseSlot a one-to-one correspondence |
| GpuNames.TextIsInjective | clearml_agent/commands/worker.py:1830-1837 | two slots never share a name |
| GpuNames.PlainFractionIsUnique | clearml_agent/commands/worker.py:1832 | the digits in a slice name stand for one value, and the value for one text |
| GpuNames.StripMeaning | clearml_agent/commands/worker.py:1944-1963 | what is stripped from an entry is exactly the white space around it |
| GpuNames.DecodeWorkerId | clearml_agent/commands/worker.py:1843-1852 | decoding a worker id built from any allocation gives back exactly its GPUs and fractions, in order |
| GpuNames.WorkerIdIsInjective | clearml_agent/commands/worker.py:1843-1852 | the same worker id means the same allocation |
| GpuTally.TallyMeaning | clearml_agent/commands/worker.py:1953-1963 | usage is the exact sum of fractions on a GPU, and at least a whole GPU if it is named whole, in any order |
| GpuTally.WorkersCounted | clearml_agent/commands/worker.py:1938-1967 | a worker counts with the slots of its id exactly if the id starts with the daemon's name and ":gpu" and is not the daemon's own; any other changes nothing |
| GpuTally.PendingMembers | clearml_agent/commands/worker.py:2015-2020 | exactly the reservations neither registered nor expired stay, with distinct names |
| GpuTally.AccountMeaning | clearml_agent/commands/worker.py:2012-2023 | the pass over the reservations keeps those and counts each of them once, although the names grow during it |
| GpuTally.AddReservedMeaning | clearml_agent/commands/worker.py:2022 | pending reservations add exactly what their children will hold |
| GpuTally.ReservedWhereCounted | clearml_agent/commands/worker.py:1991-1993 | a reservation is booked on the GPU the registered worker is counted on exactly when a static name is an integer index |
| GpuTally.MigSliceReservedElsewhere | clearml_agent/commands/worker.py:1991-1992 | a MIG slice such as 0.1 is reserved on GPU 0 but counted under its own name |
| GpuTally.FreeIsWhatNamesLeave | clearml_agent/commands/worker.py:1976-1977 | a GPU is listed free with at most what all known names leave of it |
| GpuTally.FreeKeepsOrder | clearml_agent/commands/worker.py:1976-1977 | free GPUs are listed in the order of the indexes |
| GpuTally.CountWorkers | clearml_agent/commands/worker.py:1938-1967 | the nested loops compute the tally and the names of all our workers |
| GpuTally.GpuLedger.Reserve | clearml_agent/commands/worker.py:1979-1993 | each launched slot is put into the reservations with index, fraction and time |
| GpuTally.GpuLedger.AccountPending | clearml_agent/commands/worker.py:1995-2023 | reservations, usage and names after the accounting |
| GpuTally.GpuLedger.GetAvailable | clearml_agent/commands/worker.py:1919-1977 | the view after a poll; an unreachable server changes nothing |
| GpuGrant.GatedPullIsServed | clearml_agent/commands/worker.py:1684-1696 | a pull that passes the gate gets between minimum and maximum, taken from what is free, for steady ranges |
| GpuGrant.GrantWithinBounds | clearml_agent/commands/worker.py:1773-1800 | what a pull behind the gate is given, if not shrunk, lies within the bounds exactly when they are in order |
| GpuGrant.InvertedBoundsGrantTooLittle | clearml_agent/commands/worker.py:2491-2501 | from 0.75 to 0.5, half a GPU is granted |
| GpuGrant.EarlierGpusFirst | clearml_agent/commands/worker.py:1773-1779 | of the whole GPUs the earlier ones are given first |
| GpuGrant.FractionsAreWeights | clearml_agent/commands/worker.py:1847-1853 | what is reserved for a slot is what its name will count for, unless it lacks a letter |
| GpuGrant.FractionIsBestFit | clearml_agent/commands/worker.py:1788-1800 | a fraction is put on the GPU with the least leftover that still fits |
| GpuGrant.ShareCases | clearml_agent/commands/worker.py:1788-1802 | when a share is served, and when there is no candidate at all |
| GpuGrant.ShrinkTakesLargest | clearml_agent/commands/worker.py:1801-1808 | the shrink branch takes the GPU with most left, which is less than the maximum, and grants it exactly from an eighth on |
| GpuGrant.OverrunExceedsWhatIsFree | clearml_agent/commands/worker.py:1802-1808 | whatever the shrink branch grants is more than is free; eighths of that GPU, as the comment intends, would fit and miss less than an eighth |
| GpuGrant.NameSlice | clearml_agent/commands/worker.py:1833-1837 | the first free letter names the slice; with none left the name stays bare |
| GpuProtocol.RegistryIsReadBack | clearml_agent/commands/worker.py:1938-1963 | the ids in the server's answer decode to exactly the slots of the listed children |
| GpuProtocol.LaunchedStaysReserved | clearml_agent/commands/worker.py:2015-2020 | a child that has not registered keeps its reservations through an accounting |
| GpuProtocol.TrackedIsCounted | clearml_agent/commands/worker.py:1968-1977 | after an accounting everything a live or listed child holds is known to the daemon |
| GpuProtocol.GrantFits | clearml_agent/commands/worker.py:1767-1837 | what a regular pull of any valid range hands out has new names, fits into what the known names leave, and is what the names say |
| GpuProtocol.StepKeeps | clearml_agent/commands/worker.py:1649-1857 | every step of daemon, child, server and clock keeps the invariant, pulls as long as they neither shrink nor lack a letter |
| GpuProtocol.RunKeeps | clearml_agent/commands/worker.py:1649-1857 | the invariant holds after every such run |
| GpuStacks.CrowdExactlyAtTwentySeven | clearml_agent/commands/worker.py:1834-1837 | for bounds in order, the queues can put more slices of one size on a GPU than there are letters exactly when 27 of a size fit |
| GpuStacks.KeptIsLaid | clearml_agent/commands/worker.py:1788-1800 | slices that are left when others end could have been launched in the same order without them |
| GpuReach.StackOfFree | clearml_agent/commands/worker.py:1968-1977 | in every regular run, what is free on a listed GPU is exactly what a possible order of slices leaves |
| GpuReach.StepKeepsStacks | clearml_agent/commands/worker.py:1649-1857 | every step keeps the slices of each GPU in an order in which the queues could have asked for them |
| GpuReach.RunsAreRegular | clearml_agent/commands/worker.py:1788-1837 | with the margin, and without a gap or a crowd, no run shrinks a pull or leaves a slice without a letter |
| GpuSafety.Fill | clearml_agent/commands/worker.py:1788-1837 | whatever the queues can stack on a GPU is reached by a run, named with the first letters, unless letters run out |
| GpuSafety.BareNameExactlyWhenCrowded | clearml_agent/commands/worker.py:1834-1837 | some run leaves a slice without a letter exactly when the queues can put 27 slices of one size on a GPU |
| GpuSafety.LettersRunOutAtTwentySeven | clearml_agent/commands/worker.py:1834-1837 | a range can leave its slice without a letter in a run exactly if it still finds what it needs beside 26 of its size |
| GpuSafety.ShrinkExactlyWhenGap | clearml_agent/commands/worker.py:1801-1808 | while letters suffice, some run reaches the shrink branch exactly when the queues can leave a gap |
| GpuSafety.ShrinkReachableExactlyBelowCap | clearml_agent/commands/worker.py:1801-1808 | next to suitable queues, runs reach the shrink branch exactly for ranges with the minimum below the capped maximum |
| GpuSafety.MissExactlyWhen | clearml_agent/commands/worker.py:1792-1802 | runs reach the index error exactly for a fraction as maximum and a minimum of several GPUs that the daemon has |
| GpuSafety.RegularRunsAreSafe | clearml_agent/commands/worker.py:1919-2023 | with the margin, every run without a shrunk pull or a bare name is safe, for all ranges |
| GpuSafety.LateRegistrationIsUnsafe | clearml_agent/commands/worker.py:2014-2019 | without the margin, a run gives the GPUs of one pull to two live children |
| GpuSafety.GapIsUnsafe | clearml_agent/commands/worker.py:1801-1808 | a gap of an eighth or more leads to a run with more than a whole GPU given, whatever the margin |
| GpuSafety.CrowdIsUnsafe | clearml_agent/commands/worker.py:1834-1852 | 27 slices of one size lead to a run with two live children of the same name, whatever the margin |
| GpuSafety.SafeExactlyWhen | clearml_agent/commands/worker.py:1649-1857 | all runs are safe exactly when the queues leave no such gap and no crowd, and the margin holds or nothing can start |
| GpuSafety.SteadyQueuesNeedOnlyMargin | clearml_agent/commands/worker.py:1919-2023 | for steady ranges with fewer than 27 slices to a GPU the margin alone decides |
| GpuSafety.QuarterToThreeQuartersIsUnsafe | clearml_agent/commands/worker.py:1801-1808 | the queue range 0.25-0.75 is never safe |
| GpuSafety.HalfToThreeQuartersNeedsOnlyMargin | clearml_agent/commands/worker.py:1801-1808 | the range 0.5-0.75 alone is safe exactly with the margin |
| GpuLoop.GateMeaning | clearml_agent/commands/worker.py:1684-1686 | the gate is open exactly if some GPU has the minimum free, or that many GPUs are free as a whole |
| GpuLoop.TurnMeaning | clearml_agent/commands/worker.py:1660-1713 | a turn takes its task from queue k exactly if k's task was pulled with its gate open, and every earlier queue is inactive, empty, or yields no task although its gate is open |
| GpuLoop.NothingMeaning | clearml_agent/commands/worker.py:1649-1713 | it does nothing exactly if there is no such queue or no free GPU |
| GpuLoop.TurnOutcome | clearml_agent/commands/worker.py:1764-1857 | the child gets what is chosen for that queue, under an id that says so; only a choice that ends in an exception crashes |
| GpuLoop.GatedQueueBlocksLowerOnes | clearml_agent/commands/worker.py:1684-1696 | a queue whose request does not fit keeps lower-priority queues waiting |
| GpuLoop.WalkQueues | clearml_agent/commands/worker.py:1660-1713 | the loop over the queues finds that queue |
| GpuLoop.RunTurn | clearml_agent/commands/worker.py:1649-1889 | one turn: poll, gate, choice, names and reservations |
| GpuLoop.TurnStartsExactlyWhenEnabled | clearml_agent/commands/worker.py:1764-1857 | on the protocol's view a turn starts a child exactly when the protocol can pull |
| GpuLoop.TurnIsProtocolPull | clearml_agent/commands/worker.py:1764-1857 | then it is the protocol's pull |
| GpuLoop.GateMakesPullPossible | clearml_agent/commands/worker.py:1684-1696 | for steady ranges in order the gate alone decides whether a pull happens |
| LogEvents.EventsMeaning | clearml_agent/commands/events.py:112-131 | messages are the fixed-size blocks of the text of all non-reset lines, whatever the line boundaries; timestamps strictly increase |
| LogEvents.Chunk | clearml_agent/commands/events.py:112-131 | the nested loops compute these events |
| LogEvents.TextMeaning | clearml_agent/commands/events.py:112-116 | the text is that of all lines in order, without the terminal reset code |
| LogEvents.BlocksMeaning | clearml_agent/commands/events.py:121-129 | blocks lose nothing, are never empty and are full except possibly the last |
| LogEvents.BlocksUnique | clearml_agent/commands/events.py:121-129 | there is no other such cut of a text |
| LogEvents.ChunkStamped | clearml_agent/commands/events.py:61-92 | lines with own timestamps are cut one by one, later blocks stamped one later each |
| LogEvents.StampedMeaning | clearml_agent/commands/events.py:66-90 | lines are cut one by one; the i-th block is stamped i later than its line, if that has a timestamp |
| LogEvents.PackMeaning | clearml_agent/commands/events.py:43-57 | every line is in one packet, in order; no empty packet; oversized only with a single line; greedy |
| LogEvents.PackUnique | clearml_agent/commands/events.py:43-57 | there is no other greedy packing |
| LogEvents.BodyLength | clearml_agent/commands/events.py:28 | the body of a packet is one character shorter than what it is charged for |
| LogEvents.Poster.SendPacket | clearml_agent/commands/events.py:24-40 | one post: what is registered and answered; an empty packet is never posted |
| LogEvents.Poster.SendEvents | clearml_agent/commands/events.py:23-59 | posts exactly the packets, in order, up to the first that fails; what the server registers of them; the number it answers |
| LogEvents.LogPacketsFit | clearml_agent/commands/events.py:12-13 | chunked log events never make a packet exceed the limit, with escaping up to 12 characters |
| LogEvents.SendLogEvents | clearml_agent/commands/events.py:97-134 | what one call posts and gets registered: the packets of the blocks of the text, in order, up to the first that fails |
| LogRelay.Relay.SendLogs | clearml_agent/commands/worker.py:2801-2829 | what one send gets registered, the list as it is left for the caller, and a success whatever the server registered |
| LogRelay.Relay.ReportLines | clearml_agent/commands/worker.py:2641-2660 | the source's buffer and deliveries after a report; other sources unchanged |
| LogRelay.CleanMeaning | clearml_agent/commands/worker.py:2815-2816 | cleaning a line takes out its backspaces and nothing else |
| LogRelay.ArrivedMeaning | clearml_agent/commands/events.py:30-40 | the server has the whole text of a send exactly when every post returns with its count, and nothing exactly when nothing is registered |
| LogRelay.NothingLostOrRepeated | clearml_agent/commands/worker.py:2654-2660 | lines of the sends that returned plus lines waiting are the lines reported, once each and in order, up to backspaces |
| LogRelay.UnbufferedExactlyWhenComplete | clearml_agent/commands/worker.py:2650-2652 | without truncation, the server has the text reported exactly when every send is complete |
| LogRelay.FailedSendDeliversPrefix | clearml_agent/commands/events.py:47-57 | if the posts before the failing one were registered in full, the server has a prefix of the text |
| LogRelay.TextBalance | clearml_agent/commands/worker.py:2801-2829 | the text at the server is as long as that of the accepted lines plus what failed sends got through minus what answered posts left out |
| LogRelay.TextExactlyOnce | clearml_agent/commands/worker.py:2801-2829 | every text is there or waiting once if neither fault occurs, never if exactly one does, and with both only if they balance |
| LogRelay.LateFailureRepeats | clearml_agent/commands/events.py:47-57 | a run in which a text comes twice |
| LogRelay.ShortAnswerLoses | clearml_agent/commands/events.py:33-36 | runs in which lines are gone although no send failed |
| LogRelay.FaultsCancel | clearml_agent/commands/worker.py:2817-2829 | a run with both faults in which every text is there once |
| StopSignal.TaskStopSignal.WaitForAbortCallback | clearml_agent/commands/worker.py:757-820 | the wait: start, hold, completion, timeout |
| StopSignal.TaskStopSignal.Test | clearml_agent/commands/worker.py:741-755 | one poll, with every failure swallowed |
| StopSignal.CounterMeaning | clearml_agent/commands/worker.py:875-920 | the counter is the number of created sightings since the last neutral poll, capped at four; failed polls and immediate stop conditions leave it alone |
| StopSignal.ResetExactlyAfterFour | clearml_agent/commands/worker.py:892-902 | reset is reported exactly after four earlier sightings, unless held back |
| StopSignal.AnswerMeaning | clearml_agent/commands/worker.py:603-609 | what a poll answers for each status when no callback holds it back: stopping message, failed, closed, stopped, published, queued, created below and from four sightings on, and the rest |
| Sequences.ContainsMeaning | clearml_agent/commands/worker.py:876 | the word is looked for anywhere in the message |
| StopSignal.FailedPollAnswers | clearml_agent/commands/worker.py:741-755 | a poll that does not get through never stops the task, but reports a missing one, and leaves count and wait alone |
| StopSignal.HeldBackMeaning | clearml_agent/commands/worker.py:757-820 | when a poll is held back, told from the polls |
| StopSignal.CallbackStartsOnce | clearml_agent/commands/worker.py:796-820 | the callback is launched at most once and the timeout is at most the maximum |
| StopSignal.WaitNeverRestarts | clearml_agent/commands/worker.py:761-766 | start and timeout of the wait never change once set |
| StopSignal.StopsByTimeout | clearml_agent/commands/worker.py:761-790 | an immediate stop is held back exactly until the timeout or the completion |
| StopSignal.FirstStopHeldExactlyWhen | clearml_agent/commands/worker.py:792-820 | before a wait has started, an immediate stop is held back exactly if a callback is registered and not complete, and the wait starts exactly if one is registered |
| GlueQueues.Glue.RunOneTask | clearml_agent/glue/k8s.py:499-551 | pending push, pod search, template and kubectl answer |
| GlueQueues.Glue.ReEnqueueTask | clearml_agent/glue/k8s.py:1611-1659 | leaves the pending queue, then is added and moved to the front, with each failure |
| GlueQueues.RemoveMeaning | clearml_agent/glue/k8s.py:1578-1584 | removing a task leaves the others in their order |
| GlueQueues.Glue.ReportReenqueuedTask | clearml_agent/glue/k8s.py:1586-1597 | the reason is logged when it changes |
| GlueQueues.Glue.RunTurn | clearml_agent/glue/k8s.py:1446-1551 | one turn of the loop over the queues |
| GlueQueues.QuotaOutcome | clearml_agent/glue/k8s.py:1531-1544 | what a quota rejection leaves behind, for every combination of later failures |
| GlueQueues.OtherOutcomes | clearml_agent/glue/k8s.py:504-551 | what every other launch leaves in the source queue, in the pending queue and as status: failed push, no free pod, no template, accepted, rejected |
| GlueQueues.AcceptedOrRejected | clearml_agent/glue/k8s.py:740-767 | an accepted pod leaves its task at the end of the pending queue, a rejected one leaves it nowhere and failed |
| GlueQueues.WalkMeaning | clearml_agent/glue/k8s.py:1446-1547 | which queue a turn handles: no queue up to it is suspended, it can be read, and every earlier one is skipped for a stated reason |
| GlueQueues.WalkPasses | clearml_agent/glue/k8s.py:1466-1516 | a queue that is passed loses only a head whose owner is not known |
| GlueQueues.QueueRestoredExactlyWhen | clearml_agent/glue/k8s.py:1611-1659 | when exactly the queues are as before the pull; the pending queue is left in any case |
| GlueQueues.TurnServesHead | clearml_agent/glue/k8s.py:1466-1547 | a task at the head of its queue is passed over only for higher priority and keeps its place |
| GlueQueues.LowerQueuesWait | clearml_agent/glue/k8s.py:1538-1541 | over any run, nothing is pulled from a lower-priority queue while a task waits for quota |
| GlueQueues.LoggedOncePerReason | clearml_agent/glue/k8s.py:1516-1547 | over any run with any other tasks, of the entries for pulls and for reasons the log of a task has just one for each pull that begins a wait and one for each change of the reason, exactly when it is not pulled again after it was forgotten while waiting |
| GlueQueues.FullTableForgets | clearml_agent/glue/k8s.py:1586-1597 | more than 1000 tasks waiting and one more put back: two turns after which an unchanged reason and the pull are logged again |
| GluePods.FindFromMeaning | clearml_agent/glue/k8s.py:597-653 | the number found is the least free one in the range; none exactly when all are taken |
| GluePods.RangeMeaning | clearml_agent/glue/k8s.py:633-640 | as many numbers are tried as there are services, and at least one |
| GluePods.PodPool.SearchPod | clearml_agent/glue/k8s.py:597-653 | the search loop, and that it ends |
| GluePods.PodPool.LaunchPod | clearml_agent/glue/k8s.py:597-657 | the pods after a launch |
| GluePods.NumbersStayDistinct | clearml_agent/glue/k8s.py:597-657 | over any run live pods have distinct numbers within the range |
| GluePods.SentBackExactlyWhen | clearml_agent/glue/k8s.py:597-657 | a launch is sent back exactly when all numbers are taken, or the pods of a number cannot be read and all below are taken |
| GluePods.LaunchedUnderLeastFree | clearml_agent/glue/k8s.py:597-657 | with ports, a launch that is not sent back runs under the least free number, if kubectl accepts it |
| GluePods.LimitIsKept | clearml_agent/glue/k8s.py:626-652 | over any run live pods never exceed the limit |
| GluePods.LaunchedExactlyBelowLimit | clearml_agent/glue/k8s.py:626-657 | without ports, a launch has room exactly if there is no limit, or the pods can be counted and are fewer |
| DockerArgs.GetListOfSwitches | clearml_agent/helper/docker_args.py:122-129 | the names of all switch tokens, in order |
| DockerArgs.FilterSwitches | clearml_agent/helper/docker_args.py:131-172 | the filter with its shortcut and its scan |
| DockerArgs.ShortcutIsSound | clearml_agent/helper/docker_args.py:141-143 | when the shortcut is taken no excluded switch is present |
| DockerArgs.ShortcutAgreesWhenTidy | clearml_agent/helper/docker_args.py:141-143 | shortcut and full scan agree exactly on tidy lists |
| DockerArgs.ExcludeMeaning | clearml_agent/helper/docker_args.py:149-170 | exclusion keeps exactly the tokens whose switch is not excluded |
| DockerArgs.FilterSplitsExactlyWhenTidy | clearml_agent/helper/docker_args.py:131-172 | exclusion and inclusion are complementary subsequences exactly on tidy lists, or with the shortcut |
| DockerArgs.IncludeKeepsOnlyNamedExactlyWhen | clearml_agent/helper/docker_args.py:141-143 | inclusion keeps only named switches exactly if there are names, or no switches at all |
| DockerArgs.ExcludedNeverSurvive | clearml_agent/helper/docker_args.py:157-159 | no excluded switch survives, on any list |
| DockerArgs.ExclusionIsIdempotent | clearml_agent/helper/docker_args.py:131-172 | excluding twice is excluding once, on any list |
| DockerArgs.CollectSwitchValues | clearml_agent/helper/docker_args.py:174-195 | the values passed to a switch |
| DockerArgs.SwitchValuesMeaning | clearml_agent/helper/docker_args.py:174-195 | a value follows its switch after "=", or as the next token |
| DockerArgs.EqParts | clearml_agent/helper/docker_args.py:150-156 | a token with "=" is what is before it, the sign, and the value |
| DockerArgs.DashParts | clearml_agent/helper/docker_args.py:157-162 | the name of a switch is what follows all its dashes |
| DockerArgs.StrippedExactly | clearml_agent/helper/docker_args.py:231-255 | a switch is stripped exactly if it is forbidden and some source gives it other than to clear the entrypoint |
| DockerArgs.DropStrayEmptyTokens | clearml_agent/helper/docker_args.py:197-225 | the list without stray empty tokens |
| DockerArgs.EmptyTokensAreEntrypointValues | clearml_agent/helper/docker_args.py:214-224 | an empty token is left only as the value of a space-form entrypoint |
| DockerArgs.MergeDockerArgs | clearml_agent/helper/docker_args.py:227-288 | the merged command, and as stripped exactly the switches that must go |
| DockerArgs.ProtectedFromOneSource | clearml_agent/helper/docker_args.py:262-287 | a protected switch of the preferred source is taken from that source only |
| DockerArgs.ForbiddenOnlyHarmless | clearml_agent/helper/docker_args.py:231-255 | a forbidden switch is left only as an entrypoint with only empty values |
| DockerArgs.MergedEntrypointValues | clearml_agent/helper/docker_args.py:238-247 | every entrypoint value in the merged command is empty, with the one exception |
| DockerArgs.DanglingEntrypointTakesNextToken | clearml_agent/helper/docker_args.py:238-247 | the exception happens: a trailing bare entrypoint takes the first token of the other source |
| DockerArgs.MergeMeaning | clearml_agent/helper/docker_args.py:227-288 | for tidy sources: the tokens of the preferred source whose switch need not go, then those of the other whose switch need not go and is no protected one of the preferred source, in order |
| Trees.MergeInto | clearml_agent/helper/dicts.py:10-23 | the in-place merge is the recursive merge |
| Trees.RecursiveDiff | clearml_agent/commands/base.py:443-465 | the in-place change set, and whether it is a partial one |
| Trees.DiffMerges | clearml_agent/commands/base.py:443-461 | merging the change set equals merging the update exactly when no null is left out |
| Trees.NullUpdateIsLost | clearml_agent/commands/base.py:459-460 | the witness: setting a value to null gives an empty change set, and the merge keeps the old value |
| Trees.ChangeSetSuffices | clearml_agent/commands/base.py:443-461 | for trees without null the change set is enough, at any depth |
| LayeredConfig.Config.ApplyEnvironmentOverrides | clearml_agent/backend_config/config.py:198-225 | applying the environment variables is merging their layers |
| LayeredConfig.Config.Reload | clearml_agent/backend_config/config.py:140-225 | a reload folds all layers over the current configuration |
| LayeredConfig.Config.SetOverrides | clearml_agent/backend_config/config.py:485-490 | replaces the overrides and reloads |
| LayeredConfig.Config.SetPriorityOverrides | clearml_agent/backend_config/config.py:492-506 | replaces the priority overlay and reloads |
| LayeredConfig.ReloadIsIdempotent | clearml_agent/backend_config/config.py:140-142 | with unchanged sources a second reload changes nothing |
| LayeredConfig.EnvironmentMeaning | clearml_agent/backend_config/config.py:198-225 | of the environment, the last variable that is set, and not for a list element, decides a path |
| LayeredConfig.Precedence | clearml_agent/backend_config/config.py:140-225 | priority beats environment variables beat the environment's name beat overrides beat extra values beat files beat what was there, exactly |
| LayeredConfig.LeafIsDecided | clearml_agent/backend_config/config.py:251-280 | a leaf comes from the last layer that touches its path, or was there before |
| LayeredConfig.ReplacedOverrideLingers | clearml_agent/backend_config/config.py:485-490 | a value of replaced overrides stays in force without a layer that decides it exactly when no current layer touches its path |
| LayeredConfig.WithdrawnOverrideStays | clearml_agent/backend_config/config.py:485-490 | overrides with one leaf, replaced by none: the leaf stays |
| InstanceSlots.ScanMeaning | clearml_agent/helper/singleton.py:128-155 | the scan removes dead files and collects the slots, or stops at a duplicate |
| InstanceSlots.PickSlot | clearml_agent/helper/singleton.py:157-165 | the search always assigns a slot, the least free one |
| InstanceSlots.Registry.Register | clearml_agent/helper/singleton.py:123-184 | the pid files and the outcome of a registration |
| InstanceSlots.RegisterMeaning | clearml_agent/helper/singleton.py:123-184 | fails exactly if an active instance has the given id and doubles are not allowed; otherwise the given or built id with the least free slot, at most the number of active instances |
| InstanceSlots.SlotsStayDistinct | clearml_agent/helper/singleton.py:123-184 | over any run, with processes dying and becoming visible and listings changing in any way, all pid files hold distinct slots |
| InstanceSlots.UnseenInstanceLosesSlot | clearml_agent/helper/singleton.py:139-148 | an instance that a registration neither sees nor finds listed loses its file, and the newcomer may get its slot |
| ContainerRules.MatchTerms | clearml_agent/commands/resolver.py:91-114 | every given key has all its terms matched by some value |
| ContainerRules.MatchRequirements | clearml_agent/commands/resolver.py:134-145 | every requirement is met by some package |
| ContainerRules.MatchSections | clearml_agent/commands/resolver.py:120-152 | both sections, with the lazily filled table agreeing with parsing again |
| ContainerRules.MatchesMeaning | clearml_agent/commands/resolver.py:91-152 | when a rule matches: each term of a key found in some value, each requirement of both sections met by a package of that name |
| ContainerRules.Container.Update | clearml_agent/commands/resolver.py:155-174 | the container after a rule is applied |
| ContainerRules.ScriptTextMeaning | clearml_agent/commands/resolver.py:166-168 | a script text is used as it is, and the lines of a list can be told from their text |
| ContainerRules.ResolveDefaultContainer | clearml_agent/commands/resolver.py:86-178 | the first matching rule is applied and no other, none exactly when none matches; image, arguments and script are filled in exactly when empty or forced |
| ContainerRules.LooserRuleShadows | clearml_agent/commands/resolver.py:87-152 | a rule behind one that constrains no more is never used |

## Left out

- Pulls that end in an exception: the daemon stops with its children, so they are no steps of the protocol.
- Changes of the queues' ranges during a run, and a server that lists a worker twice.
- MIG ids as GPU indexes in the protocol: their reservations are booked on another key, as `MigSliceReservedElsewhere` shows.
- Round-robin pulling in dynamic-GPU mode: the view is not refreshed there between two pulls.
- Digits and letters outside ASCII in worker ids, and fractions that need an exponent in print.
- The remaining availability that the daemon reports to the server after a grant: it is not read back.
- Live children dropping out of the server's worker list, and foreign workers using the daemon's name.
- Children left over from an earlier daemon: a run starts with no children.
- JSON encoding: a function with a length bound. What the server does with a posted packet is an answer of its own.
- The aliasing of list objects between the log buffer and its callers, beyond the in-place removal of backspaces.
- The second thread that may poll the same stop monitor; the abort callback's own command and its report to the server.
- Error lines that a failed launch or re-enqueue writes to a task's log: the log has entries for pulls and reasons.
- Effects of server calls beyond the queue and the status they name, and the server's own checks on them.
- Templates, labels, kubectl commands and the cleanup of old pods; a pod is identified by its task.
- Tokens with surrounding whitespace or missing tokens in docker arguments, and the sorted order of the reported stripped switches.
- Port remapping and secret redaction of docker arguments: bound to library parsing.
- Lists in the change set and the merge, which are leaves except for the unused top-level list case; the custom merge function; aliasing of subtrees.
- HOCON parsing and substitutions: a layer is a plain tree. The SNUG whitelist step is not part of this model.
- The registration lock's own races, the renaming of a pid file, pid files with unreadable content of another kind than a missing slot, and a process that registers twice.
- Requests to the server, version checks and requirement parsing in the rulebook: one flag and opaque functions.
