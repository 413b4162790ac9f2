# CH32V208 USB mux firmware: verification model

This project models the stateful core of the CH32V208 USB/UART/BLE firmware in Dafny and proves
what it promises. `dafny verify dfyconfig.toml` checks all of it.

**The log pipeline.** Many contexts format lines into a byte ring under a lock (`app_log.c`). One
task drains the ring in two phases: it takes a snapshot under the lock, sends it with interrupts on,
and then advances the tail. `_write` (`debug.c`) cuts the bytes into frames of at most seven and
hands them to a debug host through two registers.

- `LogRing` is the ring as a value, refined to a bounded FIFO queue with 16-bit indices.
- `AppLog` is the same code on an array with static variables.
- `Sdi` has the framing, the host's decoder and the port.
- `LogPipeline` lets producers, consumer, TMOS and host interleave step by step.
  `LogPipelineTheorems` states the results over all runs: end-to-end order, mailbox protocol,
  wake-up, and progress.
- `DropCount` lets `AppLog_Printf` calls interrupt each other and accounts for the drop counter;
  `DropSchedule` reads off the schedule when that counter is exact.

**The event task and the heartbeat.** `AppTask` is the handler of `app_task.c`. `AppTaskRuns` puts it
under a dispatcher with kicks, timers and messages. `Heartbeat` is the deadline timer on a wrapping
32-bit counter.

**Stand-alone cores.** `Heap` is `_sbrk` with wrapping addresses. `IntelHex` is the image guard of
`openocd_flash.py`, and `IntelHexImages` holds it against images written by an encoder. `ClockTree` is
the clock set-up, its read-back and `Delay_Init`. `Machine` and `Tmos` hold word arithmetic and the
assumed TMOS calls.

## Assumptions

- TMOS is closed. Dispatch takes and clears the pending bits and passes them to the handler; the
  returned bits and bits set meanwhile are or-ed back. `tmos_start_task` succeeds, and its bit
  becomes pending later.
- The debug host waits for a nonzero DATA0, reads both words, then writes zero to DATA0.
- The ring has one consumer, the mailbox one device-side writer, and `AppLog_Init` runs alone.
- The buffer holds 1 to 65536 bytes; chunk and line sizes are at least 1. The values in `config.h`
  (2048, 96, 160) are an instance.
- Calls interrupt each other like interrupts do: the later one ends first (`DropCount`).
- A HEX image counts from linear base 0 until its first base record.
- An image file is ASCII throughout. The script reads it in blocks, so a byte outside ASCII can make
  it fail even behind the end-of-file record.
- SWS comes to show SW, and a PLL that is switched on locks. HSERDY may come late or never.

## Where the code falls short of its promise

- `_write` under `-fsigned-char` (set in `.cproject`, not in the Makefile) corrupts frames in which a
  byte of at least 0x80 is followed, in the same word, by one other than 0xFF. `RoundTripIffSafe`
  gives the exact condition for one write, `HostReadsInOrder` for every run, and `SignedCharCorrupts`
  an input. Even then no byte is lost, added or moved: a changed byte arrives as 0xFF.
- The unlocked `++g_log_dropped` (`app_log.c:161`) can lose increments. `CounterExactIffNoneOvertaken`
  says exactly when, and `OvertakenIncrementIsLost` gives a run for every line and
  buffer size. The counter counts lines, not bytes,
  despite the name `AppLog_GetDroppedBytes`.
- A heartbeat poll that is due is missed if and only if its lateness modulo 2^32 is at least 2^31:
  `TogglesIffSeen` for every run, `LatePollIsMissed` for an input. No toggle is ever early, as long as
  the period is at most 2^31 ticks: `NeverEarlyIff`.
- The HEX guard passes over segment base records. It never lets a high byte through, but may refuse
  a harmless image: `GuardExact`, `StaleImageIsRefused`.
- The `_sbrk` bounds tests are right for all requests only in heaps below 2^31 bytes:
  `ExactIffBelowHalf`.
- A heap that ended at the highest address could grant a block at the failure address: `ToldApartIff`.
- With a 12 MHz crystal the HSE PLL targets run at 3/2 of their name: `ReadBack`. At the resulting 84,
  108 and 180 MHz, and on the bare crystal, the core clock is no multiple of 8 MHz and `Delay_Init`
  rounds p_us down: `BootedSuitsDelay`, `StartUp`.

## Model

| member | source | states |
|---|---|---|
| LogRing.PushByteRefinesQueue | App/usb_mux_dev/app_log.c:35-58 | for every buffer size up to 65536 a push appends to a FIFO of capacity size - 1, or is refused exactly when that is full and counts one drop |
| LogRing.PushLineRefinesQueue | App/usb_mux_dev/app_log.c:164-173 | a line enters as one contiguous prefix limited by the free space, with at most one drop for the line |
| LogRing.SnapshotIsOldestRun | App/usb_mux_dev/app_log.c:65-89 | the contiguous length names the oldest queued bytes, never crosses the wrap point, is maximal for the chunk size, and is zero only on an empty ring |
| LogRing.PushesKeepSnapshot | App/usb_mux_dev/app_log.c:177-191 | any number of lines pushed during the send leave the snapshot's cells and the tail alone and only extend the queue |
| LogRing.AdvanceTailRefinesQueue | App/usb_mux_dev/app_log.c:91-102 | advancing removes exactly the oldest bytes, also across the wrap and at size 65536 |
| LogRing.DrainAcrossPushes | App/usb_mux_dev/app_log.c:177-195 | the two-phase drain sends the oldest bytes and removes just these from the queue that grew meanwhile |
| LogRing.DrainBound | App/usb_mux_dev/app_log.c:197-223 | without producers the ring is empty after exactly ceil(a/C) + ceil(b/C) flushes, a and b being the runs before and after the wrap |
| AppLog.Log.constructor | App/usb_mux_dev/app_log.c:15-19 | the static variables start as an empty queue without a task |
| LogRing.PrintLineAddsText | App/usb_mux_dev/app_log.c:158-173 | cutting and pushing a formatted text adds its prefix of length min(len, line size - 1, free space), and counts one drop for the cut and one for a full ring |
| AppLog.Log.Init | App/usb_mux_dev/app_log.c:120-128 | empties the queue and the drop counter |
| AppLog.Log.PushByte | App/usb_mux_dev/app_log.c:45-58 | on the array: the step of `LogRing.PushByte`, with return code and drop counter |
| AppLog.Log.HasData | App/usb_mux_dev/app_log.c:60-63 | true exactly when the queue is not empty |
| AppLog.Log.GetContiguousLen | App/usb_mux_dev/app_log.c:65-89 | the array cells from the tail on are the oldest queued bytes |
| AppLog.Log.AdvanceTail | App/usb_mux_dev/app_log.c:91-102 | the array queue loses its oldest bytes |
| AppLog.Log.KickTask | App/usb_mux_dev/app_log.c:112-118 | sets the flush bit exactly when the task is registered |
| AppLog.Log.PushLine | App/usb_mux_dev/app_log.c:166-172 | the locked loop adds the prefix that fits and counts at most one drop |
| AppLog.Log.Printf | App/usb_mux_dev/app_log.c:136-175 | adds the prefix of length min(len, line size - 1, free space), counts truncation and a full ring, and kicks; does nothing without format or for len <= 0 |
| AppLog.Log.TaskInit | App/usb_mux_dev/app_log.c:130-134 | registers the task, and its own log line then sets the flush bit |
| AppLog.Log.Process | App/usb_mux_dev/app_log.c:177-195 | posts exactly the frames of the oldest run and removes that run; the ring moves as in `LogRing.Process`, so `DrainBound` counts these calls |
| AppLog.Log.ProcessEvent | App/usb_mux_dev/app_log.c:197-226 | treats one bit, returns the others, shortens a non-empty queue, and re-arms exactly when bytes are left |
| Sdi.FrameCarriesGroup | Debug/debug.c:193-207 | a frame decodes to its own bytes whatever memory follows them, even if that changes between the two register writes, and its DATA0 is not zero |
| Sdi.DecodedStream | Debug/debug.c:173-209 | the decoded stream depends on the data alone and is as long as the data |
| Sdi.RoundTripIffSafe | Debug/debug.c:173-209 | decoding gives back the written bytes if and only if no frame holds a smearing byte before a changed one |
| Sdi.UnsignedOrAsciiIsSafe | Debug/debug.c:195-204 | every write is safe with unsigned char, and every seven-bit write with signed char |
| Sdi.PromoteIsSignExtension | Debug/debug.c:193-204 | a promoted char is its value modulo 2^32, negative from 0x80 on in a signed-char build |
| Sdi.ShiftIsTimes256 | Debug/debug.c:193-204 | a shift by one byte multiplies by 256 modulo 2^32 |
| Sdi.OrIsSum | Debug/debug.c:193-204 | words without a common byte are or-ed to their sum |
| Sdi.FrameInNumbers | Debug/debug.c:180-204 | DATA0 and DATA1 of a frame as numbers over the bytes at offset i, the count in the lowest byte |
| Sdi.SignedCharCorrupts | Debug/debug.c:203-204 | in a signed-char build every write [c, d] with c >= 0x80 and d other than 0xFF arrives as [c, 0xFF] |
| Sdi.FrameSizes | Debug/debug.c:180-209 | frame k carries the bytes from 7k on, seven of them in all frames but the last |
| Sdi.CarriedStream | Debug/debug.c:180-209 | for any frames with their groups: the decoded stream has a byte for every byte carried, in place, changed at most to 0xFF, and is equal if and only if every group is safe |
| Sdi.Port.Enable | Debug/debug.c:155-157 | the mailbox starts empty |
| Sdi.Port.Write | Debug/debug.c:173-227 | the loop posts exactly the ceil(size/7) frames of the data behind what was posted and loses none; a write of size zero leaves one frame in the words |
| LogPipeline.StepKeeps | App/usb_mux_dev/app_log.c:136-223 | every step of producer, consumer, TMOS and host keeps the pipeline invariant |
| LogPipelineTheorems.HostReadsInOrder | App/usb_mux_dev/app_log.c:136-195 | for every build, run and state: taken, waiting and unsent bytes account for all accepted ones; the host's bytes stand for the oldest of them in push order, none lost, added or moved, and are these very bytes if and only if every taken frame is safe |
| LogPipelineTheorems.NothingIsRetracted | App/usb_mux_dev/app_log.c:136-195 | what the host has read, and what was accepted, only grows |
| LogPipelineTheorems.HostReadsPrefix | App/usb_mux_dev/app_log.c:136-195 | with unsigned char or seven-bit text: the host's bytes are a prefix of the accepted ones, and all others are in the mailbox or queued |
| LogPipelineTheorems.FramesTakenOnce | Debug/debug.c:180-209 | frames are taken once, in order and whole, and the device writes only when none is outstanding |
| LogPipelineTheorems.NoLostWakeUp | App/usb_mux_dev/app_log.c:112-118 | after the first successful kick a ring with data is always owed a flush |
| LogPipelineTheorems.QuietRunIsBounded | App/usb_mux_dev/app_log.c:197-226 | without new input every run ends within a bound computed from the state |
| LogPipelineTheorems.RestMeansDelivered | App/usb_mux_dev/app_log.c:213-223 | for every build: after a successful kick, a state without a possible step has delivered every accepted byte, unchanged if and only if every frame is safe |
| LogPipelineTheorems.RegistrationIsKicked | App/usb_mux_dev/app_log.c:130-134 | from the log line of AppLog_TaskInit on, a kick has found the task registered or is still to come |
| LogPipelineTheorems.StartedPipelineDelivers | App/usb_mux_dev/app_log.c:130-175 | after AppLog_TaskInit no wake-up is lost and rest means delivery, without an assumption about kicks |
| LogPipelineTheorems.StepsMakeWrite | Debug/debug.c:173-209 | the single register writes of one send add up to exactly the frames that `Sdi.Port.Write` posts |
| LogPipelineTheorems.StepsMakeProcessEvent | App/usb_mux_dev/app_log.c:177-226 | the single steps of one undisturbed call add up to the ring, the bits, the timer and the frames of `AppLog.Log.ProcessEvent` |
| DropCount.LinesAreAtomic | App/usb_mux_dev/app_log.c:158-173 | under nested interrupts the stream is one prefix per call, in lock order |
| DropCount.CounterExactIffNoStaleStore | App/usb_mux_dev/app_log.c:158-162 | the counter never exceeds truncated plus refused lines, and equals them if and only if no unlocked increment was overtaken |
| DropCount.UndisturbedCallIsPrintf | App/usb_mux_dev/app_log.c:158-173 | a call that nothing interrupts changes the ring as the method `AppLog.Log.Printf` does |
| DropSchedule.LoadedValueTracks | App/usb_mux_dev/app_log.c:161 | between the load and the store of an increment the counter equals the loaded value until some call loses a line, and is above it from then on |
| DropSchedule.CounterExactIffNoneOvertaken | App/usb_mux_dev/app_log.c:158-162 | the counter is right if and only if no call lost a line between another call's load and its store |
| DropCount.OvertakenIncrementIsLost | App/usb_mux_dev/app_log.c:161 | for every line size, every empty ring and any two overlong texts: a run of two calls whose losses the counter does not reach |
| Heartbeat.PeriodIsExact | App/usb_mux_dev/heartbeat.c:20-31 | the period conversion is exact if and only if the tick count is nonzero and fits 32 bits |
| Heartbeat.Timer.Init | App/usb_mux_dev/heartbeat.c:44-62 | LED off, deadline one period ahead modulo 2^32 |
| Heartbeat.Timer.Process | App/usb_mux_dev/heartbeat.c:64-86 | one poll: toggle and advance exactly when the signed compare says due, and nothing before initialisation |
| Heartbeat.DueIsExactIff | App/usb_mux_dev/heartbeat.c:76 | the signed compare agrees with unbounded time if and only if the lateness modulo 2^32 is below 2^31 |
| Heartbeat.DeadlineIsExact | App/usb_mux_dev/heartbeat.c:44-86 | for any poll times and period: after k toggles the stored deadline is (t0 + (k + 1) P) mod 2^32 and the LED is on exactly for odd k |
| Heartbeat.DeadlineIsNear | App/usb_mux_dev/heartbeat.c:64-86 | for any poll gaps the unbounded deadline is at most one period ahead |
| Heartbeat.TogglesIffSeen | App/usb_mux_dev/heartbeat.c:75-84 | for any poll gaps a poll toggles if and only if the deadline has passed and the lateness modulo 2^32 is below 2^31 |
| Heartbeat.NeverAhead | App/usb_mux_dev/heartbeat.c:64-86 | for any poll gaps the toggles never outnumber the periods passed |
| Heartbeat.NeverEarlyIff | App/usb_mux_dev/heartbeat.c:57-84 | no run has an early toggle if and only if the period is at most 2^31 ticks |
| Heartbeat.LagBound | App/usb_mux_dev/heartbeat.c:64-86 | while the excess so far and the next gap stay within 2^31, the lag is below the summed excess of the gaps over the period |
| Heartbeat.TogglesWhenDue | App/usb_mux_dev/heartbeat.c:75-84 | under that bound no due poll is missed: a poll toggles exactly when the unbounded deadline has passed |
| Heartbeat.WrapExact | App/usb_mux_dev/heartbeat.c:57-86 | polled once per period, the toggles are floor((t - t0)/P) across all wraps, with LED parity and the next deadline in (t, t + P] |
| Heartbeat.LatePollIsMissed | App/usb_mux_dev/heartbeat.c:76 | a poll 2^31 ticks late does not toggle |
| Tmos.MessageMask | BLE/wchble.h:133 | the message bit is 0x8000 |
| AppLog.FlushMask | App/usb_mux_dev/app_log.c:10 | the flush bit is 0x0001 |
| AppTask.Handler.SetEvent | App/usb_mux_dev/app_task.c:19-25 | kicks before registration are dropped |
| AppTask.Handler.Init | App/usb_mux_dev/app_task.c:34-45 | registers the task and sets every application bit it knows |
| AppTask.Handler.RunIo | App/usb_mux_dev/app_task.c:27-32 | one pass over the three modules in order |
| AppTask.Handler.ProcessEvent | App/usb_mux_dev/app_task.c:67-120 | one bit per call: calls made, timer re-armed, bits returned |
| AppTask.TreatedIsFirst | App/usb_mux_dev/app_task.c:71-119 | the treated bit is the first known one in the priority order |
| AppTask.OneCall | App/usb_mux_dev/app_task.c:67-120 | over any mask: the first bit of the order 0x8000, 0x0001 to 0x0010 is treated and cleared, the rest is returned unchanged, its own calls are made, and only 0x0001 and 0x0010 re-arm |
| AppTask.EachBitOnce | App/usb_mux_dev/app_task.c:67-120 | called with what it returns until nothing is left, the handler treats every known bit exactly once in priority order, makes one heartbeat call or one pass for each, and drops unknown bits in one last call |
| AppTaskRuns.StepsMakeHandler | App/usb_mux_dev/app_task.c:67-120 | the steps of one call add up to the handler |
| AppTaskRuns.HeartbeatAndPollLiveOn | App/usb_mux_dev/app_task.c:83-117 | after AppTask_Init heartbeat and poll are always pending, armed, or held by the handler |
| AppTaskRuns.BeatPerRearm | App/usb_mux_dev/app_task.c:83-90 | in every run the heartbeat calls are the starts of the heartbeat timer, plus one while a start is due |
| AppTaskRuns.RearmFollowsBeat | App/usb_mux_dev/app_task.c:83-90 | every start of the heartbeat timer has a heartbeat call behind the dispatch that took its bit, and no other call |
| AppTaskRuns.KickIsCovered | App/usb_mux_dev/app_task.c:47-117 | every kick, also during a running pass, is followed by a complete later pass within a counted number of dispatches |
| AppTaskRuns.OwedPassCanBeDispatched | App/usb_mux_dev/app_task.c:67-117 | while a pass is owed and the handler is idle, a bit is pending for the dispatcher |
| AppTaskRuns.EarlyKickIsDropped | App/usb_mux_dev/app_task.c:19-43 | a kick before registration has no effect, and registration owes the pass instead |
| Heap.Break.Sbrk | Debug/debug.c:236-248 | succeeds exactly when the unbounded new break stays in the heap and returns the old break, inside the heap; failure changes nothing and returns 0xFFFFFFFF, which no grant does below that address |
| Heap.ExactIffBelowHalf | Debug/debug.c:243 | the wrapped bounds tests are right for all breaks and increments if and only if the heap is below 2^31 bytes |
| Heap.BreakIsSum | Debug/debug.c:241-247 | over every call sequence the break is the start plus the accepted increments and stays in the heap |
| Heap.BlocksAreDisjointAndAdjacent | Debug/debug.c:246-247 | blocks granted without a release in between are disjoint, inside the heap, and without gaps |
| Heap.GivingBackUndoes | Debug/debug.c:246-247 | giving a granted block back is accepted and restores the break |
| Heap.RefusalIsTold | Debug/debug.c:243-247 | over every call sequence the result is 0xFFFFFFFF exactly for a refused request, and else the block's address inside the heap |
| Heap.ToldApartIff | Debug/debug.c:243-247 | grants never return the failure address if and only if the heap ends below it |
| IntelHex.ParseRecord | Scripts/openocd_flash.py:28-49 | the loop body reports the faults of a payload and updates base and maximum |
| IntelHex.ParseMaxAddress | Scripts/openocd_flash.py:16-52 | reports the first faulty line before the end of file, or else the greatest record address |
| IntelHex.MaxIsGreatestAddress | Scripts/openocd_flash.py:40-52 | for linear, non-wrapping records the result is the greatest denoted address, and None exactly for an image without bytes |
| IntelHex.GuardExact | Scripts/openocd_flash.py:74-91 | for every readable image: refused if and only if it denotes a byte at or above the limit or hides a stale-base record |
| IntelHex.LinearGuardExact | Scripts/openocd_flash.py:74-91 | without segment records, refused if and only if some byte lies at or above 0x08028000 |
| IntelHex.StaleImageIsRefused | Scripts/openocd_flash.py:45-50 | an image with its only byte at address 0 that is refused |
| IntelHex.Inspect | Scripts/openocd_flash.py:74-91 | parser and guard together: fails exactly on a faulty image, refuses exactly as above |
| IntelHexImages.RecordRoundTrip | Scripts/openocd_flash.py:28-50 | a record encoded as length, high offset byte, low offset byte, type, data, checksum reads back with the same fields, and ends the file exactly for type 1 |
| IntelHexImages.SoundIffEncoded | Scripts/openocd_flash.py:22-48 | a payload is without fault if and only if it is such an encoding, with two bytes for type 4; shorter than five bytes it is truncated |
| IntelHexImages.ImageIsRead | Scripts/openocd_flash.py:16-52 | of an encoded image the parser reads exactly the lines before the end-of-file record, and its maximum is the last address of a piece |
| IntelHexImages.ImageDenotesPieces | Scripts/openocd_flash.py:40-48 | an encoded image denotes exactly the addresses that its pieces cover |
| IntelHexImages.InspectImage | Scripts/openocd_flash.py:74-91 | from end to end: an image written from pieces of memory is refused if and only if one of them reaches 0x08028000, and flashed otherwise |
| ClockTree.Registers.StartHse | User/system_ch32v20x.c:544-563 | the bounded wait accepts the oscillator exactly if it is ready by the 0x1001st read |
| ClockTree.Registers.SystemInit | User/system_ch32v20x.c:111-120 | from any register content, the resulting register words for every chip, target and start-up time |
| ClockTree.SetUpBitsInNumbers | User/system_ch32v20x.c:531-671 | the CFGR0 words of every target as numbers |
| ClockTree.StartBitsInNumbers | User/system_ch32v20x.c:531-671 | the CTLR bits switched on, with and without a started oscillator, as numbers |
| ClockTree.PllInputInNumbers | User/system_ch32v20x.c:143-192 | for any register content: the frequency that the PLL multiplies, by chip and field |
| ClockTree.AhbDivisorInNumbers | User/system_ch32v20x.c:195-197 | for any register content: the divisor of HCLK by the HPRE field |
| ClockTree.BootSetsBusClocks | User/system_ch32v20x.c:556-560 | from any register content a PLL target leaves PCLK1 at half of HCLK and PCLK2 at HCLK; the others, and a timed-out one, leave both at HCLK |
| ClockTree.ReadBack | User/system_ch32v20x.c:130-197 | the clock read back is the promised one, whatever bits were kept, except 3/2 of it for a PLL on a 12 MHz crystal |
| ClockTree.TimeoutReadsHsi | User/system_ch32v20x.c:134-153 | with nothing selected the clock reads back as 8 MHz |
| ClockTree.Boot | User/system_ch32v20x.c:111-197 | set-up followed by read-back: the promised clock if the ready flag is seen by the 0x1001st read, 8 MHz if not, and the bus clocks that go with it |
| ClockTree.Delay.Init | Debug/debug.c:28-32 | p_us is the exact number of HCLK/8 ticks per microsecond if and only if the clock is a multiple of 8 MHz below 2048 MHz, and p_ms is 1000 times that modulo 2^16 |
| ClockTree.BootedSuitsDelay | User/system_ch32v20x.c:130-197 | the clock a start-up ends with is a multiple of 8 MHz except for a 12 MHz crystal used bare or by the 56, 72 and 120 MHz PLL targets |
| ClockTree.StartUp | App/usb_mux_dev/main.c:36-37 | set-up, read-back and Delay_Init together: p_us is exact if and only if the clock is such a multiple, is rounded down otherwise, and p_ms is 1000 p_us |

## Left out

- TMOS and the BLE library: closed code, replaced by the assumptions above.
- USB, UART and BLE modules: their process calls are recorded steps of the event task.
- `vsnprintf`: a returned length and a byte sequence.
- The UART branch of `_write`, GPIO, RTC and clock-enable calls: no state of interest.
- Negative sizes passed to `_write`, and the boot banner that `main` prints through it before the log starts.
- `Delay_Us` and `Delay_Ms`: busy waits.
- Hex text decoding, checksums, argument parsing and the OpenOCD process; a line whose text does not decode is one error case.
- `LogPipeline` does not follow the drop counter of line 161, which no other part reads; `DropCount` does.
- The SYSCLK selection compiles one of thirteen near-identical functions; the model has one method with the target as parameter.
- Pointer overflow in `_sbrk` is taken to wrap, as the compiler's target arithmetic does.
