# voidOS: models and proofs

A Dafny 4.11 model of the stateful core of the voidOS kernel and of the history handling of its mind,
with proofs of what that code is for. `dafny verify dfyconfig.toml` checks the whole project.

| file | models |
|---|---|
| Wrappers.dfy | an option type and helpers that the other files share |
| Word32.dfy, Crc32.dfy | the table-driven CRC-32 of the PNG writer against the bit-serial register of section 3.4 of RFC 2083, and what it detects |
| Png.dfy | the chunk and PNG writer, and a reader after sections 3.1, 3.2, 3.4, 4.1 and 6.2 of RFC 2083 |
| Framebuffer.dfy, Text.dfy | clipped and blended drawing on the pixel buffer, and text in the bitmap font |
| Grants.dfy | the grant store and how guarded calls spend it |
| Bus.dfy | parameter validation and `dispatch` with handlers in flight |
| Services.dfy, ServiceLimits.dfy, ServiceSupervisor.dfy | the service supervisor: one entry over time, its limits on restarts, the table of entries, the objects |
| Jobs.dfy, Scheduler.dfy | the scheduler: one job over time, the table of jobs and the wake queue, the objects |
| Desktop.dfy, WindowManager.dfy, Scene.dfy | the desktop as a front-to-back list, the window manager with z-counters that implements it, and the painting order |
| VPath.dfy | path containment on strings against a specification on segments |
| Framing.dfy, Gate.dfy | line framing of the socket, and a connection with requests in flight |
| History.dfy | the agent's conversation history and its regrouping for the Anthropic backend |

Code that updates state is modelled by methods with loops or by classes with fields. A class method is
proved to take one step of a state machine over values (`Model` reads the object as a value), and the
properties of whole runs are lemmas about that machine, over every sequence of steps. Callbacks are
steps too: a process exit, a timer, the end of a handler or of a command. Time is an integer number of
milliseconds that does not go back, and timers never fire early.

What the proofs found false of the code, each with the exact condition under which it holds:

* A job cancelled while its shell command runs fires again if it recurs and its runs are not used up
  (`Jobs.CancelledJobFiresAgainIff`).
* A job whose delay setTimeout cannot hold (more than 2^31 - 1 ms) fires after one millisecond
  (`Jobs.NeverEarlyIff`).
* An accepted path whose first segment starts with a backslash does not resolve to itself again
  (`VPath.ResolveAgain`); a root that is not absolute and normalised refuses everything
  (`VPath.RootWorksIffNormal`), and an empty one nothing on account of escaping
  (`VPath.EmptyRootNeverEscapes`).
* A click on the right or bottom edge line of a window goes to a window that is not the one on show
  there (`Scene.PainterAgreesWithHitTesting`, `Scene.EdgeClickMisses`).
* The PNG writer accepts images and data lengths that RFC 2083 forbids (`Png.RoundTrip`, strict case).
* A rectangle side whose ends wrap at 32 bits is not painted as asked (`Framebuffer.SpanIsExactIff`); a
  stroke blends some border pixels more than once, exactly those on more than one of its border lines
  (`Framebuffer.Buffer.StrokedOnceIff`).
* The messages of a request alternate between user and assistant exactly when no earlier turn ran into
  the step limit (`History.RolesAlternateIff`; `History.RolesClash` is a history where they do not).
* Damage of up to 32 bits is always detected inside type and data or inside the CRC field, but not across
  their boundary: it is missed exactly when the field changed by the syndrome of the data's burst
  (`Png.DamageIsMissedIff`, `Png.BoundaryBurstIsMissed`).

## Model

| member | source | states |
|---|---|---|
| Crc32.MakeTable | kernel/src/desktop/compositor.ts:116-124 | every table entry is its index clocked eight times through the polynomial step |
| Crc32.Compute | kernel/src/desktop/compositor.ts:126-130 | for every byte sequence the table-driven loop gives the bit-serial CRC of RFC 2083 |
| Crc32.StepIsBijective | kernel/src/desktop/compositor.ts:120 | the inner step can be undone on every 32-bit register |
| Crc32.StepIsLinear | kernel/src/desktop/compositor.ts:120 | the inner step is linear over xor |
| Crc32.ByteStepIsSerial | kernel/src/desktop/compositor.ts:128 | one table lookup and shift does what feeding the byte's eight bits in serially does |
| Crc32.FeedWord | kernel/src/desktop/compositor.ts:116-130 | at most 32 bits fed in serially act like one word xored in before the clocking |
| Crc32.BurstIsDetected | kernel/src/desktop/compositor.ts:126-130 | sequences of equal length that differ within any 32 consecutive bits have the same CRC exactly when they are equal |
| Crc32.FourByteWindowIsDetected | kernel/src/desktop/compositor.ts:126-130 | the same for a difference inside any four consecutive bytes |
| Crc32.CrcDifference | kernel/src/desktop/compositor.ts:126-130 | a burst of at most 32 bits changes the CRC by a syndrome that depends on the burst and on the number of bits after it, and on no other data |
| Crc32.LongerBurstsEscape | kernel/src/desktop/compositor.ts:126-130 | the bound is sharp: in every message two different five-byte sequences, whose difference spans 33 bits, can take each other's place without changing the CRC |
| Crc32.KnownValues | kernel/src/desktop/compositor.ts:116-130 | the CRC of nothing is 0, and that of ff ff ff 7f is 12477cdf, the complement of the polynomial |
| Png.U32RoundTrip | kernel/src/desktop/compositor.ts:134-137 | a 32-bit field is read back as it was written |
| Png.FieldsAreBigEndian | kernel/src/desktop/compositor.ts:134-137 | the most significant byte of a field comes first |
| Png.WriteChunk | kernel/src/desktop/compositor.ts:132-139 | a chunk is length, type, data and the CRC over type and data, or a RangeError when the length does not fit its field |
| Png.ChunkLayout | kernel/src/desktop/compositor.ts:132-139 | where length, type, data and CRC lie in a chunk |
| Png.PackRow | kernel/src/desktop/compositor.ts:150-154 | one round of the row loop appends a filter byte 0 and the row, zeros standing in for missing pixels |
| Png.PackRows | kernel/src/desktop/compositor.ts:148-154 | the packed buffer is exactly the h unfiltered scanlines of the image |
| Png.UnfilterFiltered | kernel/src/desktop/compositor.ts:148-154 | reading the scanlines back gives the pixels |
| Png.Encode | kernel/src/desktop/compositor.ts:141-157 | the file is the signature and the three chunks, and a RangeError comes exactly when a field overflows |
| Png.FileLayout | kernel/src/desktop/compositor.ts:141-157 | signature and chunk types byte by byte, and the header: width, height, 8 bits a channel, colour and alpha |
| Png.ReadSerializedAll | kernel/src/desktop/compositor.ts:132-139 | a chunk reader with CRC check gets back any list of written chunks, and a strict one refuses exactly lists with an over-long chunk |
| Png.RoundTrip | kernel/src/desktop/compositor.ts:141-157 | decoding an encoded file gives width, height and pixels back; a decoder that enforces RFC 2083's limits accepts it exactly when they hold |
| Png.PixelsSurvive | kernel/src/desktop/compositor.ts:150-154 | the pixels come back unchanged exactly when the buffer has four bytes a pixel |
| Png.DamagedChunkIsRejected | kernel/src/desktop/compositor.ts:132-139 | a chunk whose type and data took a burst of at most 32 bits is never accepted |
| Png.DamagedFileIsRejected | kernel/src/desktop/compositor.ts:132-157 | a file with such a chunk anywhere has no image |
| Png.DamagedFieldIsRejected | kernel/src/desktop/compositor.ts:132-139 | a chunk with only its CRC field changed is never accepted |
| Png.DamageIsMissedIff | kernel/src/desktop/compositor.ts:132-139 | with a burst in type and data and any change of the CRC field, a chunk is accepted exactly when the field was changed by the syndrome of the burst |
| Png.BoundaryBurstIsMissed | kernel/src/desktop/compositor.ts:132-139 | every chunk has such damage: a burst of 31 bits from the last data bit into the CRC field that is accepted |
| Framebuffer.BlendChannel | kernel/src/desktop/compositor.ts:31-35 | a blended channel is the exact mixture rounded down, and lies between its old value and the colour |
| Framebuffer.BlendIsExact | kernel/src/desktop/compositor.ts:21-36 | a blended pixel is opaque and each channel is mixed from its own two; alpha 0 changes nothing, alpha 1 replaces the pixel |
| Framebuffer.StrongerIsNearer | kernel/src/desktop/compositor.ts:31-35 | a stronger blend of the same colour ends no farther from it, on the same side |
| Framebuffer.OpaqueBlendsOnce | kernel/src/desktop/compositor.ts:24-30 | blending an opaque colour again changes nothing |
| Framebuffer.SpanIsExactIff | kernel/src/desktop/compositor.ts:43-44 | a side is painted as asked on every screen coordinate exactly when wrapping its two ends to 32 bits leaves the range on screen alone; for a side that starts within 32 bits, exactly when it also ends there |
| Framebuffer.GradientChannel | kernel/src/desktop/compositor.ts:50-55 | a gradient channel is the exact interpolation rounded down, and lies between the top and the bottom colour |
| Framebuffer.GradientIsMonotone | kernel/src/desktop/compositor.ts:50-55 | a gradient channel moves one way only down the rows |
| Framebuffer.GradientEnds | kernel/src/desktop/compositor.ts:50-55 | the first row is exactly the top colour and the last exactly the bottom one |
| Framebuffer.GradientColorEnds | kernel/src/desktop/compositor.ts:50-55 | all three channels begin and end at the two colours |
| Framebuffer.LastRowIsDistance | kernel/src/desktop/compositor.ts:49-56 | which gradient row ends up on a screen row, for all coordinates: the last of those 2^32 apart, and within 32 bits its distance from the top |
| Framebuffer.RoundedIsSymmetric | kernel/src/desktop/compositor.ts:63-69 | for every radius the rounded shape is its own mirror image outside the columns and rows where corners overlap, and turns over the diagonal with its rectangle |
| Framebuffer.RoundedIsDilation | kernel/src/desktop/compositor.ts:60-73 | while the corners do not overlap, the rounded shape is what a disc of the radius covers as its centre goes over the rectangle shrunk by the corners |
| Framebuffer.OverlapIsLopsided | kernel/src/desktop/compositor.ts:63-69 | a concrete shape with overlapping corners that is not its mirror image |
| Framebuffer.Buffer.constructor | kernel/src/desktop/compositor.ts:15-19 | a new buffer is all zero |
| Framebuffer.Buffer.OffsetInRange | kernel/src/desktop/compositor.ts:23 | the bytes of a pixel on screen are inside the buffer |
| Framebuffer.Buffer.OffsetsDiffer | kernel/src/desktop/compositor.ts:23 | different pixels share no byte |
| Framebuffer.Buffer.Blend | kernel/src/desktop/compositor.ts:21-36 | exactly the one pixel is blended, none when off screen or fully transparent |
| Framebuffer.Buffer.FillRect | kernel/src/desktop/compositor.ts:42-46 | every pixel of the clipped rectangle is blended once and no other is touched, for all integer arguments |
| Framebuffer.Buffer.PaintRows | kernel/src/desktop/compositor.ts:49-57 | a pixel takes the colour of the last row painted over it |
| Framebuffer.Buffer.VGradient | kernel/src/desktop/compositor.ts:48-58 | every pixel of the clipped rectangle gets its row's gradient colour and no other is touched |
| Framebuffer.Buffer.RoundRect | kernel/src/desktop/compositor.ts:60-73 | every pixel of the rounded shape is blended once and no other is touched |
| Framebuffer.Buffer.StrokeRect | kernel/src/desktop/compositor.ts:75-80 | every pixel is blended once for each side that holds it |
| Framebuffer.Buffer.SidesMeet | kernel/src/desktop/compositor.ts:75-80 | within 32 bits, for every width and height, a pixel is blended once for each of the four border lines it lies on |
| Framebuffer.Buffer.StrokedOnceIff | kernel/src/desktop/compositor.ts:75-80 | a pixel of a stroked rectangle is blended exactly once when it lies on exactly one border line, so never at a corner and nowhere on a rectangle one pixel wide or high |
| Text.DrawText | kernel/src/desktop/compositor.ts:89-103 | every pixel is blended once for each square of the text that holds it |
| Text.TextIsScaledBitmap | kernel/src/desktop/compositor.ts:89-103 | within 32 bits the squares neither overlap nor leave gaps: a pixel is blended once exactly where the scaled-up bitmap of the text is lit, and nowhere for a scale below 1 |
| Framebuffer.Buffer.ToPng | kernel/src/desktop/compositor.ts:109-111 | decoding the file gives back the size and exactly the pixels of the buffer |
| Grants.GrantStore.Grant | kernel/src/policy.ts:8-12 | uses add up under their target, and unlimited absorbs |
| Grants.GrantAdds | kernel/src/policy.ts:8-12 | an issue adds finite uses to its key, makes it unlimited if either is, and touches no other key |
| Grants.GrantStore.PermitKeyOf | kernel/src/policy.ts:15-21 | the loop finds the first covering key with uses left |
| Grants.GreedyKey | kernel/src/policy.ts:15-21 | that is the name if it has uses, else the class, else "all", else none |
| Grants.GrantStore.Consume | kernel/src/policy.ts:23-28 | one use is taken, the entry goes with its last use, unlimited stays |
| Grants.GrantStore.Revoke | kernel/src/policy.ts:30-33 | the target goes, or everything without a target or with an empty one |
| Grants.RevokeTakes | kernel/src/policy.ts:30-33 | a revocation without a target or with an empty one leaves nothing, any other takes one key and no other |
| Grants.SpendTakesOne | kernel/src/policy.ts:23-28 | spending takes one use off its key and none off any other |
| Grants.GreedyDenials | kernel/src/policy.ts:15-28 | the number of denied calls is the three-level excess formula over names, classes and "all" |
| Grants.GreedyIsFeasible | kernel/src/policy.ts:15-28 | no key is spent more often than it has uses, and only keys that cover the call |
| Grants.ShortfallIsLeast | kernel/src/policy.ts:15-28 | no assignment of calls to covering grants, even one made in hindsight, denies fewer than the formula |
| Grants.GreedyIsOptimal | kernel/src/policy.ts:15-28 | most-specific-first denies no more calls than any feasible assignment |
| Grants.GreedyRemainder | kernel/src/policy.ts:15-28 | what every key has left afterwards, in closed form |
| Grants.OrderDoesNotMatter | kernel/src/policy.ts:15-28 | reordering the calls changes neither the number denied nor what is left under any key |
| Bus.Validate | kernel/src/bus.ts:68-88 | no complaint exactly for conforming arguments, otherwise the first missing or unfit parameter |
| Bus.TypesAccepted | kernel/src/bus.ts:74-88 | which declared types each JSON value passes for |
| Bus.PropertiesAccepted | kernel/src/bus.ts:73-82 | absent values and untyped properties pass; options are looked at only for typed ones |
| Bus.BusObject.Dispatch | kernel/src/bus.ts:18-44 | the synchronous half of a dispatch: unknown, denied, malformed, or spent and started |
| Bus.EveryCallIsDecided | kernel/src/bus.ts:18-44 | ENOSYS exactly for unknown names, EPERM exactly for calls that are not let through, EINVAL exactly for malformed ones among the rest, and all others start; reads and permissive mode always let through, guarded mode exactly with uses under name, class or "all" |
| Bus.EveryStartIsPaid | kernel/src/bus.ts:43-44 | a read or permissive start costs nothing, a guarded one exactly one use of the most specific grant |
| Bus.UnlimitedUntilRevoked | kernel/src/policy.ts:8-28 | in every run an unlimited grant stays so until a revocation takes it, and until then every well-formed call it covers starts |
| Bus.BusObject.Finish | kernel/src/bus.ts:45-53 | the end of a handler writes its audit entry |
| Bus.BusObject.IssueGrant | kernel/src/capabilities/sys.ts:91-97 | an operator grant: one use by default, negative uses meaning unlimited, nothing under a wrong token |
| Bus.BusObject.RevokeGrant | kernel/src/capabilities/sys.ts:111-116 | an operator revocation, nothing under a wrong token |
| Bus.RejectedSpendsNothing | kernel/src/bus.ts:18-44 | a rejected call leaves one audit entry and nothing else; a guarded write or exec handler starts only on a covering grant with uses left |
| Bus.EveryDispatchIsAccountedFor | kernel/src/bus.ts:18-54 | under any interleaving every dispatch is either in flight or has exactly one audit entry, under its name, and the two add up to the dispatches begun |
| Bus.OneEntryAtMost | kernel/src/bus.ts:20-53 | what each event writes to the audit log: the reason of a rejection, or the grant and the outcome of a finished handler |
| Bus.AuditIsTruthful | kernel/src/bus.ts:18-54 | entries are only added, and each tells of a call or an end of a handler that happened |
| Bus.Conservation | kernel/src/policy.ts:8-33 | for each finite key, initial plus granted uses are spent plus left plus revoked ones |
| Bus.TotalConservation | kernel/src/policy.ts:8-33 | the same summed over any list of finite keys |
| Bus.StartsAreSpent | kernel/src/bus.ts:28-46 | the guarded write and exec handlers started for any set of capabilities together spent at least that many uses of the keys that cover them, and exactly as many when all capabilities are counted |
| Bus.StartsAreGranted | kernel/src/bus.ts:28-46 | such handlers, all together and however they share grants, never start more often than uses were granted; over all capabilities, uses granted are starts plus uses left plus uses revoked |
| Bus.ParanoidStartsNothing | kernel/src/policy.ts:58 | in paranoid mode no write or exec handler starts |
| Bus.RefusalsAreTheShortfall | kernel/src/bus.ts:28-43 | the well-formed guarded calls refused in a run are exactly the shortfall of the grants, whatever comes in between |
| Services.StepInv | kernel/src/services.ts:69-96 | every event keeps status, child, timer and what really runs and waits in agreement |
| Services.ExitStops | kernel/src/services.ts:148-166 | an exit leaves the entry stopped, without a timer, when it is to be stopped, under policy "no", and under "on-failure" after code 0 |
| Services.ExitRestarts | kernel/src/services.ts:168-182 | any other exit is the next restart in a row, the first after a run of more than 10 s: failed above the ceiling, otherwise restarting with a timer due after exactly min(500k, 5000) ms |
| Services.FireDoes | kernel/src/services.ts:179-182 | a due restart timer launches its entry |
| Services.StartDoes | kernel/src/services.ts:69-76 | a stopped or failed entry is launched with its crashes forgotten, another one left alone |
| Services.StopDoes | kernel/src/services.ts:78-88 | no timer is left; an entry without a process is stopped, one with a process once that exits, under every policy |
| Services.RemoveDoes | kernel/src/services.ts:90-96 | no timer is left and the entry is gone from the table |
| Services.NeverMeansByHand | kernel/src/services.ts:160-166 | over whole runs, a service with policy "no" is launched exactly as often as it is started by hand |
| Services.OneProcessOrOneTimer | kernel/src/services.ts:126-183 | in every reachable state an entry has at most one process or one timer, a process exactly while running and a timer exactly while restarting |
| Services.NoLaunchAfterStop | kernel/src/services.ts:78-88 | after `stop` nothing is launched until a `start` that finds the entry stopped or failed |
| Services.NoLaunchAfterRemove | kernel/src/services.ts:90-96 | after `remove` the entry is never launched again |
| ServiceLimits.LaunchBound | kernel/src/services.ts:148-183 | between manual starts, launches are at most 1 + M(1 + S) for ceiling M and S stable exits |
| ServiceLimits.LaunchRate | kernel/src/services.ts:148-183 | launches in T milliseconds are at most 1 + M(1 + T/10001) |
| ServiceLimits.TotalBackoffClosedForm | kernel/src/services.ts:176 | the sum of the capped linear backoffs in closed form |
| ServiceLimits.LaunchesAreSpacedOut | kernel/src/services.ts:168-182 | without a stable exit, the launch after n restarts comes no earlier than the sum of n backoffs after the start |
| ServiceLimits.CeilingIsReached | kernel/src/services.ts:168-174 | for every number S of stable exits the bound is met: some run ends as failed after exactly 1 + M(1 + S) launches |
| ServiceSupervisor.SupStepInv | kernel/src/services.ts:46-96 | every request keeps names and declared entries in one-to-one correspondence |
| ServiceSupervisor.DefineDoes | kernel/src/services.ts:46-67 | a free name gets an entry, running at once with autostart and stopped without; a taken one changes nothing |
| ServiceSupervisor.NamedDoes | kernel/src/services.ts:69-96 | a request by name changes the entry of that name only; an unknown name changes nothing |
| ServiceSupervisor.CallbackDoes | kernel/src/services.ts:120-124 | an exit or a timer changes its own entry only |
| ServiceSupervisor.EveryReachableStateIsSound | kernel/src/services.ts:46-183 | in every reachable supervisor each named service has one process exactly while running and one timer exactly while restarting, and unnamed entries have no timer |
| ServiceSupervisor.EntriesAreIndependent | kernel/src/services.ts:120-124 | what an entry does depends on its own events alone |
| ServiceSupervisor.RemovedIsNeverLaunched | kernel/src/services.ts:90-96 | a removed entry is never launched again, even when its name is taken anew |
| ServiceSupervisor.EventsAreOrdered | kernel/src/services.ts:144-183 | an entry meets its events in time order in every ordered run of the supervisor |
| ServiceSupervisor.LaunchRateInTable | kernel/src/services.ts:148-183 | in every run of the supervisor an entry is launched at most 1 + M(1 + T/10001) times within T milliseconds of a start by hand or by `define`, up to the next |
| ServiceSupervisor.LaunchesSpacedInTable | kernel/src/services.ts:168-182 | and, without a stable exit, its launch after n restarts comes no earlier than n backoffs after that start |
| ServiceSupervisor.Supervisor.Launch | kernel/src/services.ts:126-146 | the launch step on the object |
| ServiceSupervisor.Supervisor.StartEntry | kernel/src/services.ts:71-74 | the start step on the object |
| ServiceSupervisor.Supervisor.StopEntry | kernel/src/services.ts:80-86 | the stop step on the object |
| ServiceSupervisor.Supervisor.RemoveEntry | kernel/src/services.ts:92-94 | the removal step on the object, which keeps the timer handle |
| ServiceSupervisor.Supervisor.OnExitEntry | kernel/src/services.ts:148-183 | the exit step on the object |
| ServiceSupervisor.Supervisor.OnTimerEntry | kernel/src/services.ts:179-182 | the timer step on the object |
| ServiceSupervisor.Supervisor.Define | kernel/src/services.ts:46-67 | a new entry under a free name with the defaults, started unless told otherwise; an error for a name that is taken |
| ServiceSupervisor.Supervisor.Start | kernel/src/services.ts:69-76 | only the named entry changes, by the start step; an error for an unknown name |
| ServiceSupervisor.Supervisor.Stop | kernel/src/services.ts:78-88 | only the named entry changes, by the stop step; an error for an unknown name |
| ServiceSupervisor.Supervisor.Remove | kernel/src/services.ts:90-96 | the entry takes the removal step and loses its name; an error for an unknown name |
| ServiceSupervisor.Supervisor.OnExit | kernel/src/services.ts:144-158 | the exit callback reaches its entry whether or not it is still named |
| ServiceSupervisor.Supervisor.OnTimer | kernel/src/services.ts:179-182 | the timer callback reaches its entry |
| Jobs.StepInv | kernel/src/scheduler.ts:117-158 | every event keeps the timer, the running command, `enabled` and the run limit in agreement |
| Jobs.RecurringGoesOn | kernel/src/scheduler.ts:149-158 | in every reachable state a listed job that has not run, or recurs and has runs left, is enabled and has a timer or a command; and it is enabled in no other case but while its command runs |
| Jobs.NewJobWaits | kernel/src/scheduler.ts:64-80 | a new job waits exactly its first delay |
| Jobs.FireDoes | kernel/src/scheduler.ts:117-132 | a due timer counts a run, and a wake job is armed again for exactly one interval later or ends |
| Jobs.DoneDoes | kernel/src/scheduler.ts:138-158 | the end of a command arms a shell job again for exactly one interval later or ends it |
| Jobs.CancelDoes | kernel/src/scheduler.ts:93-98 | cancelling clears the timer and leaves the command and `enabled` alone |
| Jobs.EveryRunIsReached | kernel/src/scheduler.ts:117-158 | some ordered run makes any number of runs up to the limit, and any number at all without one |
| Jobs.NextRunIsAnnounced | kernel/src/scheduler.ts:149-153 | `nextRunAt` is when the armed timer is due, in every reachable state, for delays setTimeout can hold |
| Jobs.SerialAndBounded | kernel/src/scheduler.ts:117-158 | never a timer and a command at once, enabled exactly with a next run, at most max(1, maxRuns) runs |
| Jobs.CancelledJobFiresAgainIff | kernel/src/scheduler.ts:93-98 | a cancelled job can fire again exactly when its command was running, it recurs and its runs are not used up |
| Jobs.RecurringShellJobRearms | kernel/src/scheduler.ts:130-147 | such a job is reached by every recurring shell job without a run limit |
| Jobs.NeverEarly | kernel/src/scheduler.ts:79-81 | the k-th run comes no earlier than creation + firstDelay + (k-1)·every, for delays setTimeout can hold |
| Jobs.NeverEarlyIff | kernel/src/capabilities/cron.ts:35-42 | with the delays `cron.schedule` passes, jobs are never early exactly when the delay is at most 2^31 - 1 |
| Scheduler.DeliveredOnceInOrder | kernel/src/scheduler.ts:101-105 | drained batches followed by the queue are what was queued, in order |
| Scheduler.NumberedInOrder | kernel/src/scheduler.ts:123 | wakeups are numbered without gap or repeat |
| Scheduler.ScheduleDoes | kernel/src/scheduler.ts:52-83 | a free name gets a new job, a shell job exactly with a command; a taken one changes nothing |
| Scheduler.CancelNamedDoes | kernel/src/scheduler.ts:93-98 | the named job is cancelled and loses its name; an unknown name changes nothing |
| Scheduler.CallbackDoes | kernel/src/scheduler.ts:117-129 | a due timer of a wake job queues one wakeup with the next number and the name and prompt of its job, and no other callback does |
| Scheduler.OneWakeupPerRun | kernel/src/scheduler.ts:117-129 | a wake job queues exactly one wakeup for each of its runs |
| Scheduler.JobsAreIndependent | kernel/src/scheduler.ts:111-115 | what a job does depends on its own events alone |
| Scheduler.NeverEarlyInTable | kernel/src/scheduler.ts:52-83 | in every ordered run of the scheduler the k-th run of a job comes no earlier than creation + firstDelay + (k-1)·every, for delays setTimeout can hold |
| Scheduler.JobEntry.AfterFire | kernel/src/scheduler.ts:149-158 | the job is re-armed or disabled as the step says |
| Scheduler.JobEntry.FireOnce | kernel/src/scheduler.ts:117-132 | one run is counted and either re-arms the job or starts its command |
| Scheduler.JobEntry.EndCommand | kernel/src/scheduler.ts:138-146 | the end of a command re-arms or disables the job |
| Scheduler.JobEntry.Unlist | kernel/src/scheduler.ts:95-96 | cancelling clears the timer and leaves `enabled` alone |
| Scheduler.SchedulerObject.ScheduleJob | kernel/src/scheduler.ts:52-83 | a new armed job under a free name; an error for a name that is taken |
| Scheduler.SchedulerObject.CancelJob | kernel/src/scheduler.ts:93-98 | the job takes the cancel step and loses its name; an error for an unknown name |
| Scheduler.SchedulerObject.DrainWakeups | kernel/src/scheduler.ts:101-105 | the queue is returned and emptied |
| Scheduler.SchedulerObject.FireJob | kernel/src/scheduler.ts:117-132 | the timer callback runs the job and queues a wakeup for a wake job |
| Scheduler.SchedulerObject.CommandEnded | kernel/src/scheduler.ts:138-146 | the exit or error callback reaches its job whether or not it is still listed |
| Desktop.StepKeeps | kernel/src/desktop/wm.ts:42-123 | every operation keeps ids and apps unique and every window reachable |
| Desktop.EveryWindowIsReachable | kernel/src/desktop/wm.ts:50-61 | in every reachable desktop each window is below the panel with its title bar on screen in full height and at least 80 px of width |
| Desktop.PressDoes | kernel/src/desktop/wm.ts:96-107 | a press closes the first window under it on its close button, and elsewhere brings it to the front; it starts a drag exactly on the title bar |
| Desktop.WindowFollowsPointer | kernel/src/desktop/wm.ts:96-119 | pressed on its title bar and moved anyhow, a window stands where the way of the pointer takes it, clamped, and nothing else changed |
| Desktop.ReleaseEndsDrag | kernel/src/desktop/wm.ts:120-122 | once the pointer is up, moves change nothing |
| Desktop.PressOnDock | kernel/src/desktop/wm.ts:108-111 | off all windows, a press within a dock tile launches its app |
| Desktop.PressBesideDock | kernel/src/desktop/wm.ts:108-111 | and beside the tiles does nothing |
| Desktop.LaunchRaises | kernel/src/desktop/wm.ts:45-49 | launching an app that has a window brings that window to the front |
| Desktop.LaunchOpens | kernel/src/desktop/wm.ts:50-63 | launching one that has none opens a window of its size in front, at the next of six places |
| Desktop.UnknownAppOpensNothing | kernel/src/desktop/wm.ts:43-44 | launching an unknown app changes nothing |
| Desktop.DragIsPathIndependent | kernel/src/desktop/wm.ts:112-119 | after any moves of one drag the window is where the last move alone would have put it, and nothing else changed |
| Desktop.StaleDragIsHarmless | kernel/src/desktop/wm.ts:112-119 | a closed window's id never returns, so a drag left over from it moves nothing |
| WindowManager.SortDownSorts | kernel/src/desktop/wm.ts:91 | the sorted array holds the same windows by falling z |
| WindowManager.SortIsUnique | kernel/src/desktop/wm.ts:80-82 | with distinct z values there is only one sorted order |
| WindowManager.SortsAreReverse | kernel/src/desktop/wm.ts:80-92 | the program's rising sort and its falling sort are each other's reverse |
| WindowManager.RaiseRefines | kernel/src/desktop/wm.ts:66-69 | giving a window the next z moves it to the front and keeps the others' order |
| WindowManager.CloseRefines | kernel/src/desktop/wm.ts:71-73 | filtering the array deletes the window from the list |
| WindowManager.MoveRefines | kernel/src/desktop/wm.ts:112-119 | moving the dragged window changes it in its place in the list |
| WindowManager.LaunchRefines | kernel/src/desktop/wm.ts:50-63 | a new window joins at the front |
| WindowManager.RelaunchRefines | kernel/src/desktop/wm.ts:45-49 | launching an open app raises its window |
| WindowManager.DownRefines | kernel/src/desktop/wm.ts:96-107 | a press raises the window it hits, then closes it or starts a drag |
| WindowManager.WindowManagerObject.constructor | kernel/src/desktop/wm.ts:35-40 | a fresh desktop has the three initial windows |
| WindowManager.WindowManagerObject.RaiseWindow | kernel/src/desktop/wm.ts:66-69 | move to front on the list |
| WindowManager.WindowManagerObject.CloseWindow | kernel/src/desktop/wm.ts:71-73 | delete from the list |
| WindowManager.WindowManagerObject.LaunchApp | kernel/src/desktop/wm.ts:42-64 | push or raise on the list; the id of the app's window, or -1 |
| WindowManager.WindowManagerObject.Ordered | kernel/src/desktop/wm.ts:80-82 | the windows of the array by rising z, which is the list from back to front |
| WindowManager.WindowManagerObject.FocusedId | kernel/src/desktop/wm.ts:84-88 | the head of the list, or -1 |
| WindowManager.WindowManagerObject.TopWindowAt | kernel/src/desktop/wm.ts:90-93 | the first window of the list that holds the point |
| WindowManager.WindowManagerObject.PointerDownAt | kernel/src/desktop/wm.ts:96-111 | the press step: raise, close, start a drag, or launch from the dock |
| WindowManager.WindowManagerObject.PointerMoveTo | kernel/src/desktop/wm.ts:112-119 | the clamped drag step |
| WindowManager.WindowManagerObject.PointerUpNow | kernel/src/desktop/wm.ts:120-122 | the drag ends |
| WindowManager.Replay | kernel/src/desktop/wm.ts:35-123 | after any sequence of events on a fresh window manager its list is that of the same run of Desktop.Step, so everything proved of such runs holds of it |
| Scene.ComposePoint | kernel/src/desktop/scene.ts:119-121 | painting the windows back to front shows, at a point, the last one painted over it |
| Scene.PainterAgreesWithHitTesting | kernel/src/desktop/scene.ts:119-121 | the window on show is the window hit exactly off the right and bottom edge lines of the window hit |
| Scene.EdgeClickMisses | kernel/src/desktop/scene.ts:119-121 | a concrete point on the fresh desktop that hits a window while none is shown there |
| VPath.PrefixTest | kernel/src/capabilities/vpath.ts:11 | the equality and `startsWith` tests with a separator are a segment-prefix test |
| VPath.DotGoes | kernel/src/capabilities/vpath.ts:10 | resolution drops "." and empty segments, in any context |
| VPath.ParentTakesChild | kernel/src/capabilities/vpath.ts:10 | and ".." with the segment before it |
| VPath.TopHasNoParent | kernel/src/capabilities/vpath.ts:10 | and ".." at the top |
| VPath.ResolveInSpec | kernel/src/capabilities/vpath.ts:8-19 | under a normalised root other than "/", a request is accepted exactly when its segments extend the root's and do not enter ".void", with no "." or ".." in the result |
| VPath.ParentEscapes | kernel/src/capabilities/vpath.ts:8-19 | under every normalised root other than "/", ".." escapes and a plain name is accepted unless it is ".void" |
| VPath.ResolveInAtTop | kernel/src/capabilities/vpath.ts:8-19 | under "/" only requests for "/" are accepted |
| VPath.RootWorksIffNormal | kernel/src/capabilities/vpath.ts:10-13 | a non-empty root accepts anything exactly when it is absolute and normalised |
| VPath.EmptyRootNeverEscapes | kernel/src/capabilities/vpath.ts:10-13 | under an empty root no request is refused as escaping |
| VPath.ResolveAgain | kernel/src/capabilities/vpath.ts:8-19 | the root-relative part of a result resolves to the same result exactly when it does not start with a backslash |
| VPath.BackslashIsLost | kernel/src/capabilities/vpath.ts:9 | a concrete request for which it does not |
| Gate.Connection.IndexOfNewline | kernel/src/transport/socket.ts:21 | the first newline of the buffer, or -1 |
| Gate.Connection.OnData | kernel/src/transport/socket.ts:18-26 | a callback handles the non-blank complete lines of the buffer and the chunk, in order, keeps the rest, and ends |
| Gate.Connection.Handle | kernel/src/transport/socket.ts:34-43 | a malformed line or a request without a method is replied to at once, any other is put in flight |
| Gate.Connection.Resume | kernel/src/transport/socket.ts:43-52 | the end of a dispatch writes the reply with the id of its request |
| Gate.Connection.SendReply | kernel/src/transport/socket.ts:54-56 | one more line is written |
| Gate.OneReplyPerLine | kernel/src/transport/socket.ts:18-56 | however the stream is chunked and in whatever order dispatches end, every non-blank complete line is in flight or has exactly one reply, with its id and the error that fits it |
| Gate.RepliesTellOutcomes | kernel/src/transport/socket.ts:43-52 | in every run, the reply to a dispatched request carries the result, or the failure, of that very dispatch |
| Gate.ClientReadsReplies | kernel/src/transport/socket.ts:54-56 | a client that frames lines the same way reads exactly the replies written, in order |
| Framing.ChunkingDoesNotMatter | kernel/src/transport/socket.ts:17-26 | however a stream is chunked, the same lines are handled and the same text is kept |
| Framing.WhatIsBlank | kernel/src/transport/socket.ts:24 | spaces, tabs and line ends make a blank line, any printable ASCII character one that is not |
| Framing.NonBlankIsExact | kernel/src/transport/socket.ts:24 | the lines left out are exactly the blank ones |
| Framing.FramingRoundTrip | kernel/src/transport/socket.ts:17-26 | newline-free lines arrive as sent, blank ones left out, and nothing stays behind |
| History.VoidAgent.RunCalls | mind/void_mind/agent.py:142-150 | the results of a reply are appended in the order of its calls |
| History.VoidAgent.Run | mind/void_mind/agent.py:121-153 | a turn appends the user message and its rounds, up to 25, and returns the last non-empty reply text; the backend is only called with the history so far, one user message, and rounds that all had calls |
| History.RoundsHold | mind/void_mind/agent.py:126-150 | round k of a turn is the k-th reply with the results of its calls, each its own |
| History.RoundsAreCounted | mind/void_mind/agent.py:126-140 | a turn takes the rounds up to the first reply without calls, and 25 at most |
| History.RoundMessages | mind/void_mind/agent.py:134-150 | a round leaves the reply and one message for each call with its id and result |
| History.LastTextIs | mind/void_mind/agent.py:125-140 | the text of a turn is that of its last round with a text |
| History.Regroup | mind/void_mind/backends.py:137-155 | the loop computes the message-by-message regrouping |
| History.AssistantIsSent | mind/void_mind/backends.py:140-147 | text becomes a block exactly when there is any, calls become blocks in order, and a message with neither is empty |
| History.RegroupingKeepsEverything | mind/void_mind/backends.py:137-155 | flattening the provider messages gives back the history apart from the tool names of results, for every history |
| History.RegroupPieces | mind/void_mind/backends.py:149-155 | each round becomes one assistant message and, if it has calls, one user message with all its results |
| History.EveryCallIsAnswered | mind/void_mind/backends.py:137-155 | an assistant message with calls is followed by exactly one user message with the results of these calls, in order, and results appear nowhere else |
| History.RolesAlternateIff | mind/void_mind/agent.py:126-153 | in every history the backend is called with, user and assistant messages alternate exactly when no earlier turn ran into the step limit |
| History.RolesClash | mind/void_mind/agent.py:126-153 | a concrete history that does not alternate: a model that never stops calling tools, and the next user message |
| History.WaitingHistoryAlternatesIff | mind/void_mind/agent.py:126-153 | between turns the history alternates exactly when no turn but the last ran into the step limit |

## Left out

- Png.RoundTrip: takes deflate and inflate as any pair in which inflate undoes deflate; zlib itself is not part of this model.
- Png.DamageIsMissedIff: damage to the length field is not modelled, nor bursts of more than 32 bits in type and data.
- Png.Encode: does not model Node's limit on buffer sizes, which makes the allocation of the scanlines fail for very large images.
- Framebuffer.BlendChannel: alpha and gradient positions are exact fractions; floating-point rounding before the truncation is not modelled, and colour components are bytes.
- Framebuffer.RoundedIsSymmetric: says nothing of the mirror image where corners overlap, which the first matching corner decides.
- Framebuffer.Buffer.SidesMeet: for strokes within 32 bits; beyond, `StrokeRect` counts the wrapped sides.
- Text.TextIsScaledBitmap: for text within 32 bits; beyond, `DrawText` counts the wrapped squares.
- Text.DrawText: the font is any table of five rows of three dots, the string is taken in upper case, and coordinates and scale are whole numbers.
- `Framebuffer.circle`: one more loop over `blend`; it would repeat the proof of `RoundRect`.
- Bus.BusObject.Dispatch: reason texts, timestamps, durations and the argument summary of audit entries are left out; a handler is only its start and its end, and `args` holds a caller's own keys.
- Grants.GreedyDenials: uses are whole numbers, as `sys.grant` validates them; capability names are not risk classes or "all".
- Services.StepInv: a signal sent by `stop` or `remove` is not tied to the exit that follows it, and a process whose spawn fails simply never exits; logs, pids and timestamps are left out, and so is `shutdown`, after which the process ends.
- Jobs.NeverEarly: setTimeout is taken to wait at least its delay, a delay outside 1 .. 2^31 - 1 counting as 1; a next run too far off for a date to hold is not modelled, nor is command output.
- Scheduler.SchedulerObject.CommandEnded: every command is taken to end once, by `exit` or by `error`.
- WindowManager.WindowManagerObject.RaiseWindow: windows are values in the array rather than objects of their own; the accent colour is left out.
- Scene.ComposePoint: window footprints are rectangles; shadows, rounded corners, texts and the dock, which is painted over the windows, are left out.
- VPath.ResolveInSpec: `path.resolve` is modelled by its POSIX behaviour on segments, not by its character loop; symbolic links are not part of this model.
- Gate.Connection.OnData: works on decoded characters; a code point split between chunks is not modelled, and parsing a line and rendering a reply are parameters.
- History.VoidAgent.Run: replies and results of calls are arbitrary; exceptions, printing, approval and the Ollama and OpenAI translations are left out.
- The registry, process and HTTP managers, capability handlers, scanout, `ui/` and `boot/`: thin wrappers and device input and output.
