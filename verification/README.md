# A verified model of the UGREEN LED daemon

The LEDs of a UGREEN NAS hang off a small microcontroller on the I2C bus. Three
programs drive it: an event-driven daemon fed by eBPF collectors (`ebpf/`), a
kernel module (`kmod/`) and a command line tool (`cli/`). This project models
them in Dafny, from the block request or packet that a collector sees, through
the policy machines and the cached LED controller, to the state of the device,
and proves what holds in every run, for every interleaving of CPUs and every
pattern of bus faults.

Code that changes state in place is modelled twice: as a class whose methods
follow the C code (fields, arrays, loops, early returns), and as a function on
values that the methods are proved to compute. The properties are lemmas about
those functions, so they hold of the methods. Faults are data: the bus carries a
list with one outcome for each coming attempt, and the kernel maps one with the
outcome of each coming operation, so a theorem about every such list is a
theorem about every fault pattern. What the CPUs do between two map operations of
the daemon is data in the same way.

| module | what it is |
|---|---|
| `Types`, `Settings`, `Timers` | integer widths, settings and timing arithmetic, one-shot timers |
| `WireFormat`, `Mcu` | frames and checksums; the microcontroller and the faulty bus |
| `LedController` | the daemon's cached controller, its coherence, and its refinement of write-through |
| `Discovery`, `KernelMaps`, `DiskLeds` | slots, the two kernel maps, the disk activity machine and its shared timer |
| `DiskLimiter`, `Addressing` | the compare-and-swap rate limiter on any number of CPUs; whose LED its events carry while the maps are rewritten |
| `Burst`, `NoFlicker` | limiter, map rewrites and hold time composed; exactly when a busy disk keeps blinking |
| `Scheduler`, `NetworkLed`, `NetworkFlow` | pulse colours, the pulse machine, and every byte from packet to scheduler |
| `Daemon`, `Rounds` | startup, the event loop and whole runs; what one round does, and the daemon's half of the traffic as a run of `NetworkFlow` |
| `EndToEnd` | a block request from tracepoint to light; a colour from the configuration to the light |
| `ConfigText`, `Serials`, `ConfigRules` | configuration lines, the serial list, ranges and the final validation |
| `Cli`, `Kmod` | the command line tool's status and blink commands; the kernel module's cache |

Results about the code that its documentation does not say, or says otherwise:

- `ebpf/README.md:61-64` promises that after the idle deadline the LED returns to
  its steady state. It does so if and only if, in the bus outcomes that are its turn,
  commands for a colour and a brightness that are not cached are acknowledged and the
  on/off command is applied (`DiskLeds.TimerRestoresIff`; one applied attempt of five
  when every LED is known, `DiskLeds.KnownTimerRestoresIff`). Otherwise the slot
  becomes idle without a retry and the LED goes on blinking, and such runs exist from
  a normal startup on (`Daemon.FailedRestoreIsReachable`).
- `ebpf/README.md:66-67` promises that empty slots are turned off. An empty slot's LED
  is off after the rescan if and only if it was off or one of five attempts is applied
  (`DiskLeds.RescanShowsIff`, which also has the condition for new disks); a lost
  command is not retried (`DiskLeds.RescanIsNotRepeated`).
- `ebpf/README.md:59-61` promises that activity is shown by the bays that receive it.
  While maps are rewritten and collectors run, that holds if and only if no mapped
  device has left or moved (`Addressing.AddressedIff`): an event of a removed disk that
  is still on the ring lights the slot of its successor, because hot-plug messages are
  handled first (`EndToEnd.ReplacedDiskLightsItsSuccessor`).
- The kernel module keeps its cached state when a command fails, so a command
  that was applied but not acknowledged leaves it permanently out of step
  (`Kmod.UnheardCommandStrandsModule`; `Kmod.RequestStaysInSync` has the exact
  condition on the bus outcomes for every request). The daemon forgets the entry
  and recovers.
- `ugreen_led_set_blink` can return 0 after a failed command: 0 means that the
  reported delays were sent, whatever the bus does, if and only if the LED did not
  blink before or blinked that way already (`Kmod.ZeroTrustworthyIff`,
  `Kmod.ZeroMeansSentIff`).
- The checkers of both status readers reject a zero sum, so an LED that is off,
  dark, black and has never blinked looks like a missing one
  (`Cli.StatusRoundTrip`, `Kmod.ProbeLearns`).
- On any number of CPUs, a disk keeps blinking through a burst exactly when emission
  interval, request gap, flight time (from the start of a run of the collector to its
  compare-and-swap) and delivery delay together fit into the hold time, as long as the
  maps are left alone. A resync takes every disk's target away for a moment, so
  plugging one disk can make another one flicker. With at most one resync between two
  emissions the hold time must also cover a second gap, the outage, and a stall: runs
  that have found the target but not yet its state die in the resync, and on `n` CPUs
  they can put it off by the smaller of the flight time and `n` gaps. No hold time is
  enough for any number of resyncs (`NoFlicker.NoFlickerIff`). The final validation
  does not compare interval and hold time.
- `parse_unsigned` accepts a minus sign when the 64-bit negation is in range
  (`ConfigRules.NegativeNumbers`).
- In `README.md:341-345` the comments of the two `i2cset` examples are swapped
  against the protocol table above them (`README.md:335`). The code follows the table,
  and so does the model: 1 is on.

## Model

| member | source | states |
|---|---|---|
| WireFormat.DaemonFrame | ebpf/src/led_controller.c:158-183 | Filling the buffer, summing its first ten bytes and patching byte 0 afterwards gives exactly the documented twelve-byte frame, for every LED, command and parameters |
| WireFormat.FramesAgree | kmod/led-ugreen.c:44-55 | The module's 16-bit expression and the tool's growable vector give the same documented frame as the daemon |
| WireFormat.ComputeChecksum | cli/ugreen_leds.cpp:31-40 | The loop returns the sum of the first `size` bytes, and 0 for a size below 2 or beyond the data |
| WireFormat.AppendedVerifies | cli/ugreen_leds.cpp:42-54 | A payload with its checksum appended verifies if and only if it has at least 2 bytes and a sum between 1 and 65535 |
| WireFormat.ShortFramesVerify | cli/ugreen_leds.cpp:42-54 | Payloads of 2 to 257 bytes with a nonzero sum always verify |
| WireFormat.SingleByteChangeRejected | cli/ugreen_leds.cpp:42-47 | Changing any one byte of a frame that verifies makes it fail |
| WireFormat.TranspositionAccepted | cli/ugreen_leds.cpp:42-47 | Swapping two payload bytes is never detected |
| WireFormat.CommandFrameSelfChecks | cli/ugreen_leds.cpp:86-102 | The tool's own checker accepts the tool's command frames for LED 0 and for no other, because the LED id is not in the sum |
| WireFormat.KmodAccepts | kmod/led-ugreen.c:93-102 | The module's 16-bit loop over a status block decides exactly what the tool's checker decides |
| Mcu.DecodeFrame | README.md:315-337 | Every command, encoded as the table says, is decoded by the table to the same command for the same LED |
| Mcu.SendEffect | ebpf/src/led_controller.c:185-229 | Whatever fails, five attempts touch only their own LED, leave it untouched or with the command applied, cost one to five frames, and report success only when it was applied |
| Mcu.SendOutcome | ebpf/src/led_controller.c:197-222 | Told from the outcomes ahead: the retry loop reports success if and only if one of its attempts is acknowledged with 1, the device has executed the command if and only if one of them is applied, and exactly the outcomes up to the acknowledgement are used up |
| Mcu.SendHealthy | ebpf/src/led_controller.c:197-222 | Without faults one frame is sent and the command is applied |
| LedController.PerformCoherent | ebpf/src/led_controller.c:231-316 | From any coherent state and under any faults, every call returns with each valid cache field equal to the device's; success means the device has the requested value, frame or no frame; a bus failure empties the entry; -EINVAL exactly for malformed calls, which change nothing; no other LED is touched |
| LedController.RunCoherent | ebpf/src/led_controller.c:113-140 | After any sequence of calls since opening, on any device and any faults, the cache is coherent |
| LedController.CacheRefinesWriteThrough | ebpf/src/led_controller.c:231-316 | On a healthy bus the cached controller and one that always writes bring the device to the same state, for every call sequence |
| LedController.RepeatSendsNothing | ebpf/src/led_controller.c:231-316 | Repeating a call that returned 0 leaves controller and bus as they are, even if the bus has begun to fail |
| LedController.FramesPerCall | ebpf/src/led_controller.c:185-316 | A setter sends at most five frames, and none if and only if it is malformed or the cache already holds the value |
| LedController.PerformOutcome | ebpf/src/led_controller.c:185-316 | A setter that sends returns 0 if and only if one of five attempts is acknowledged, and changes its device LED if and only if one is applied |
| LedController.CycleWraps | ebpf/src/led_controller.c:297-301 | The comparison of the 16-bit cycle with the on time catches exactly the sums beyond 65535 |
| LedController.LedController.constructor | ebpf/src/led_controller.c:113-140 | Opening starts with an empty cache |
| LedController.LedController.Invalidate | ebpf/src/led_controller.c:149-156 | Empties the entry of one LED and ignores ids out of range |
| LedController.LedController.ChangeStatusOnce | ebpf/src/led_controller.c:168-183 | One block write of the documented frame |
| LedController.LedController.ChangeStatus | ebpf/src/led_controller.c:185-229 | The retry loop over `error` and `accepted` is the recursive specification that `Mcu.SendEffect` is about; the entry is emptied when all attempts fail |
| LedController.LedController.SetColor | ebpf/src/led_controller.c:231-250 | Computes the colour call of `PerformCoherent` in place |
| LedController.LedController.SetBrightness | ebpf/src/led_controller.c:252-270 | Computes the brightness call in place |
| LedController.LedController.SetOn | ebpf/src/led_controller.c:272-289 | Computes the on/off call in place |
| LedController.LedController.SetBlink | ebpf/src/led_controller.c:291-316 | Computes the blink or breath call in place, with the 16-bit cycle test first |
| Settings.TimingIsExact | ebpf/src/disk_led.c:364-377 | For validated settings the unsigned and 16-bit arithmetic of the blink times neither wraps nor truncates, both times are positive and sum to the interval in either invert setting, and the deadline lies strictly after the event |
| Discovery.PackingIsInjective | ebpf/src/disk_led.c:62-67 | Two devices whose numbers pass the range check never pack to the same word |
| Discovery.PackingIsExact | ebpf/src/disk_led.c:62-67 | A device number is accepted if and only if it fits in 12 and 20 bits, and both parts can be read off the packed word |
| Discovery.Discover | ebpf/src/disk_led.c:149-189 | The scan over the directory fills the slot array as the first eligible device of each slot dictates |
| Discovery.DiscoveredIsAMatching | ebpf/src/disk_led.c:171-182 | A slot is present if and only if some eligible device belongs to it, then it has the first such device, and no two slots have the same device number |
| KernelMaps.TargetsExact | ebpf/src/disk_led.c:331-348 | Inserting the present slots one by one gives the map from exactly their devices to exactly their LEDs |
| KernelMaps.NextTarget | ebpf/src/disk_led.c:338-346 | Each insertion of a resync is of a new device and there is room for it |
| KernelMaps.BpfRuntime.ClearTargets | ebpf/src/bpf_runtime.c:214-227 | Deleting keys until none is left terminates with an empty map while the CPUs run the collector between any two deletions, and at every step of CPUs and daemon each target has a state |
| KernelMaps.BpfRuntime.ClearStates | ebpf/src/bpf_runtime.c:214-227 | The same for the state map once no target is left |
| KernelMaps.BpfRuntime.ClearDiskTargets | ebpf/src/bpf_runtime.c:229-237 | Targets before states: at no step of CPUs or daemon, failing operations included, is there a target without a state; on success both maps are empty |
| KernelMaps.BpfRuntime.SetDiskTarget | ebpf/src/bpf_runtime.c:239-261 | State before target with rollback: both keys on success, otherwise nothing but this device's state changes; safe for a device that is not a target yet; for one that is, its live target loses its state if and only if the state update succeeds, the target update fails and the deletion succeeds |
| DiskLeds.SteadiedEffect | ebpf/src/disk_led.c:191-206 | One successful `set_steady` repairs any fault history of its LED: colour, brightness and on/off are known and right; a failure empties the entry; no other LED is involved |
| DiskLeds.RearmedExactly | ebpf/src/disk_led.c:208-225 | Arming never fails and sets the timer to the exact minimum of the active deadlines, or disarms it when there is none |
| DiskLeds.BlinkStartedEffect | ebpf/src/disk_led.c:364-387 | A slot becomes active if and only if one of five attempts to start its blink is acknowledged, and its entry is dropped otherwise |
| DiskLeds.ActivityKeeps | ebpf/src/disk_led.c:350-391 | Activity under any faults keeps the invariant (policy, cache and device agree; no deadline is forgotten) and moves the deadline of exactly its slot; the slot is active afterwards if and only if it was or a blink is acknowledged; the timer is exact; absent slots are ignored |
| DiskLeds.SlotExpiredKeeps | ebpf/src/disk_led.c:403-416 | One round of the timer loop makes exactly a due slot idle, touches only its LED, and keeps policy, cache and device in agreement under any faults; the entry is complete if and only if `set_steady` succeeded |
| DiskLeds.SlotRestoredIff | ebpf/src/disk_led.c:403-416 | After its round the LED of a due slot shows its idle state if and only if, in the outcomes ahead, a colour and a brightness that are not cached are acknowledged and the on/off command is applied; otherwise it goes on blinking |
| DiskLeds.TimerKeeps | ebpf/src/disk_led.c:393-418 | The timer handler makes exactly the active slots with a deadline up to `now` idle, keeps the others, re-arms at the exact minimum of the rest, and keeps the invariant under any faults |
| DiskLeds.TimerRestoresIff | ebpf/src/disk_led.c:393-418 | After the whole handler the device LED of a due slot shows its idle state if and only if, in the outcomes that the due slots before it leave, a colour and a brightness that are not cached are acknowledged and the on/off command is applied; otherwise it goes on blinking |
| DiskLeds.KnownTimerRestoresIff | ebpf/src/disk_led.c:393-418 | With every LED known before, that is one applied attempt among the five that are the slot's turn |
| DiskLeds.FailedRestoreIsFinal | ebpf/src/disk_led.c:403-416 | Five lost writes when the only active slot is due leave it idle with its LED blinking, no timer armed and a working bus |
| DiskLeds.RescanKeeps | ebpf/src/disk_led.c:248-283 | A rescan replaces exactly the slots whose device changed, keeps every active deadline watched although it does not touch the timer, and ends with the presence and devices just discovered; without an error the replaced LEDs are known to show it |
| DiskLeds.RescanShowsIff | ebpf/src/disk_led.c:258-279 | The device LED of a replaced slot shows it after the rescan if and only if, by the outcomes that the replaced slots before it leave, each command is applied and those before it acknowledged, or the LED was right in that respect; for an empty slot: it was off or one of five attempts is applied |
| DiskLeds.RescanIsNotRepeated | ebpf/src/disk_led.c:258-279 | A rescan of the same devices right after a rescan does nothing at all, whatever was lost in the first |
| DiskLeds.FreshReachesEverySlot | ebpf/src/disk_led.c:301-304 | The device number set by init differs from whatever the first rescan finds, so that rescan reaches every slot |
| DiskLeds.DeviceShowsPolicy | ebpf/src/disk_led.c:191-206 | In every reachable state the LED of an active slot really blinks, an LED whose last update got through shows the policy exactly, and a field can be wrong only where the cache knows that it does not know it |
| DiskLeds.DiskLeds.SetSteady | ebpf/src/disk_led.c:191-206 | Computes the specification of `SteadiedEffect` in place, stopping at the first error |
| DiskLeds.DiskLeds.ArmTimer | ebpf/src/disk_led.c:208-225 | The loop over the slot array computes the specification of `RearmedExactly` |
| DiskLeds.DiskLeds.RescanSlot | ebpf/src/disk_led.c:258-279 | One round of the rescan loop: compare, invalidate, steady or off, overwrite the slot |
| DiskLeds.DiskLeds.Rescan | ebpf/src/disk_led.c:248-283 | The loop over the slot array computes the specification of `RescanKeeps`, with the first error |
| DiskLeds.DiskLeds.StartBlink | ebpf/src/disk_led.c:364-387 | Computes the specification of `BlinkStartedEffect` in place |
| DiskLeds.DiskLeds.HandleActivity | ebpf/src/disk_led.c:350-391 | Computes the specification of `ActivityKeeps` on the slot array and timer |
| DiskLeds.DiskLeds.HandleTimer | ebpf/src/disk_led.c:393-418 | The loop over the slot array computes the specification of `TimerKeeps` |
| DiskLeds.DiskLeds.SyncSlot | ebpf/src/disk_led.c:338-346 | One insertion extends the synchronised prefix of slots or fails with the maps still safe |
| DiskLeds.DiskLeds.SyncBpf | ebpf/src/disk_led.c:331-348 | At every step of a resync, of CPUs or daemon, failing ones included, each target has a state; on success the maps are exactly the present slots' devices and LEDs, with equal key sets, and every target ever set is among them if and only if those set before are; it succeeds if and only if none of its map operations fails, one for each old entry and two for each present slot |
| Scheduler.CreditClosedForm | ebpf/src/scheduler.c:11-39 | For every history the RX credit is the sum of RX shares minus the RX picks, the TX credit is its negation, and both stay within half a pulse of zero |
| Scheduler.PicksAreRoundedShares | ebpf/src/scheduler.c:11-39 | For every history the RX picks among mixed samples are floor(sum of shares + 1/2) |
| Scheduler.PulsesCounted | ebpf/src/scheduler.c:33-36 | For every history each pulse counter is the number of answers for its direction, up to the largest 64-bit number, and together they answer every sample |
| Scheduler.OneSidedSample | ebpf/src/scheduler.c:17-20 | One-sided traffic picks its own side and leaves the credits alone |
| Scheduler.WindowFairness | ebpf/src/scheduler.c:21-31 | In any window of any history each direction's picks differ from its shares by strictly less than 1 |
| Scheduler.NoPinning | ebpf/tests/ugreen_ledd_test.c:28-36 | A window in which one direction's shares reach 1 contains a pulse of that direction |
| Scheduler.ConstantRatio | ebpf/tests/ugreen_ledd_test.c:11-26 | Constant bytes in lowest terms p:q give exactly k * p RX picks in k * (p + q) samples and return the credits to zero |
| Scheduler.PulseScheduler.ChooseRx | ebpf/src/scheduler.c:11-39 | Computes in place the choice that the closed form is about |
| NetworkLed.PulseTimeValid | ebpf/src/network_led.c:15-26 | For every pulse of 0 to 1000 ms the timer value is nonzero, its nanoseconds are below 10^9, and it is the pulse length (1 ns for 0) |
| NetworkLed.StartedKeeps | ebpf/src/network_led.c:28-51 | If init succeeds the LED is known to be off with the configured brightness; on a healthy bus it succeeds |
| NetworkLed.LitOutcome | ebpf/src/network_led.c:89-101 | On a dark LED a pulse starts if and only if, in the outcomes ahead, the commands for a colour that is not cached and for turning it on are acknowledged |
| NetworkLed.DarkenedOutcome | ebpf/src/network_led.c:131-139 | At the end of a pulse the device LED goes dark if and only if one of five attempts is applied; the cache keeps its colour if one is acknowledged and forgets the LED otherwise |
| NetworkLed.RenderedKeeps | ebpf/src/network_led.c:67-119 | Under any faults rendering never fails and strands nothing; with traffic pending and the LED dark it hands all of it to the scheduler and begins a pulse if and only if the LED can be lit, in the scheduled colour and ending after the configured time; otherwise it does nothing |
| NetworkLed.TimerKeeps | ebpf/src/network_led.c:121-141 | Under any faults the end of a pulse darkens the LED as far as the bus lets it when nothing is pending, and begins the next pulse with its own colour and end when something is; it strands nothing |
| NetworkLed.DeviceShowsPulse | ebpf/src/network_led.c:67-119 | While a pulse is on the device LED is lit in one of the two colours; otherwise it is off wherever the cache knows |
| NetworkLed.NetworkLed.Start | ebpf/src/network_led.c:28-51 | Computes the specification of `StartedKeeps` |
| NetworkLed.NetworkLed.AddSample | ebpf/src/network_led.c:53-65 | Saturating addition to both pending counters, and nothing else |
| NetworkLed.NetworkLed.ArmTimer | ebpf/src/network_led.c:15-26 | Arms for the pulse time of `PulseTimeValid` |
| NetworkLed.NetworkLed.Light | ebpf/src/network_led.c:89-101 | Colour, then on; the entry is dropped when either fails |
| NetworkLed.NetworkLed.Render | ebpf/src/network_led.c:67-119 | Computes the specification of `RenderedKeeps` in place |
| NetworkLed.NetworkLed.HandleTimer | ebpf/src/network_led.c:121-141 | Computes the specification of `TimerKeeps` in place |
| DiskLimiter.RunKeeps | ebpf/bpf/disk.bpf.c:29-51 | In every interleaving of any number of CPUs with userspace rewriting both maps, each state's deadline is its last emission plus the interval and emissions are spaced |
| DiskLimiter.SwapDecides | ebpf/bpf/disk.bpf.c:42-45 | No ABA: after a passed check the compare-and-swap wins if and only if no other CPU has emitted since the deadline was read |
| DiskLimiter.DeadlinesGrow | ebpf/bpf/disk.bpf.c:43-45 | The deadline of one state strictly increases |
| DiskLimiter.RateLimit | ebpf/bpf/disk.bpf.c:41-51 | Emissions i and j of one state are at least (j - i) intervals apart, and at most W / interval + 1 of them fall into a window of length W |
| DiskLimiter.UndisturbedRequest | ebpf/bpf/disk.bpf.c:17-54 | A run that no other CPU disturbs is the sequential limiter: one event with the device and LED of the target if and only if there is no deadline or it has passed |
| DiskLimiter.RingIsQueue | ebpf/bpf/disk.bpf.c:45-51 | In every run the ring holds the events that were put on it, in order, without those that the daemon took; events at a full ring are lost |
| DiskLimiter.ResetForgetsTheLimit | ebpf/src/bpf_runtime.c:242-254 | Rewriting the maps resets the limit: two events for one device can have the same time |
| Addressing.AddressedIff | ebpf/src/bpf_runtime.c:214-261 | Every interleaving of the daemon's map operations with any number of collectors ends with every CPU and ring event carrying the LED of its device if and only if each target ever set is still in the map, that is, no mapped device has left or moved |
| Addressing.EventOutlivesItsTarget | ebpf/bpf/disk.bpf.c:29-50 | For any map operations of the daemon, a request right after a target is set leaves its event on the ring to the end, whatever becomes of the target |
| NoFlicker.SlotMoves | ebpf/src/disk_led.c:363-417 | On a healthy bus the burst model moves the slot of a present disk exactly as the handling of ring events and of the timer does, and with nothing else |
| Burst.WithinReach | ebpf/bpf/disk.bpf.c:29-51 | While a run of the collector is in flight or a request may come, less than interval + gap + flight has passed since the latest emission, and with a rewrite in between less than another gap, stall and outage more |
| NoFlicker.BlinksThroughBurst | ebpf/bpf/disk.bpf.c:29-51 | If the hold time covers what can come between two events, a disk blinks from its first delivered event until at least the hold time after its last, in every legal interleaving of the collector on any number of CPUs with map rewrites, deliveries and timer wake-ups, other disks included |
| NoFlicker.FlickerWitness | ebpf/bpf/disk.bpf.c:29-51 | If it does not, a legal run exists in which the timer stops the blinking of a busy disk, from every state in which a burst can begin, on any positive number of CPUs |
| NoFlicker.NoFlickerIff | ebpf/src/disk_led.c:331-348 | Runs are free of flicker if and only if interval + gap + flight + delay <= hold without a rewrite; interval + 2 * gap + outage + min(flight, CPUs * gap) + flight + delay <= hold with at most one rewrite between two emissions; and never with any number of rewrites; for every gap of at least 1 ns |
| NetworkFlow.BytesAreConserved | ebpf/bpf/network.bpf.c:30-52 | In every interleaving and for each direction, while the total fits in 64 bits, bytes seen equal bytes in the counters, in events on their way to the ring, in the ring, dropped at a full ring, pending, and handed to the scheduler |
| NetworkFlow.EmissionsSpaced | ebpf/bpf/network.bpf.c:37-48 | On any number of CPUs and in every run the collector emits for exactly the packets that come first or at least the interval after the last that emitted, in the order in which they held the lock; so emissions are at least the interval apart |
| NetworkFlow.UndisturbedPacket | ebpf/bpf/network.bpf.c:30-52 | At any point of any run a packet on an idle CPU emits if and only if it is due: then its event carries both counters with its own length added, both start again at zero, the next deadline is the interval later, and the event is put on the ring or dropped; otherwise only its length is added |
| NetworkFlow.RingIsQueue | ebpf/src/main.c:140-143 | In every run the ring holds the samples that were put on it, in order, without those that the daemon took |
| NetworkFlow.ConsumeAddsHead | ebpf/src/main.c:76-81 | Consuming takes the head of the ring and adds its received bytes to the pending received and its sent to the pending sent ones, up to the largest 64-bit number |
| NetworkFlow.PacketLights | ebpf/src/network_led.c:67-119 | From a packet to the light: with nothing on its way and the LED dark, a due packet lights the LED in the colour that the scheduler gives to all bytes counted so far, for the configured time |
| NetworkFlow.SchedulerSeesHistory | ebpf/src/network_led.c:77-84 | The scheduler's state is that of the handed samples in order, none of them empty |
| NetworkFlow.TrafficDecidesColors | ebpf/src/network_led.c:77-84 | In every run the RX pulses among mixed samples are the rounded sum of their RX shares |
| Daemon.PowerAppliedKeeps | ebpf/src/power_led.c:4-32 | If it succeeds the power LED has exactly the configured colour, brightness and mode with unwrapped times; -EINVAL cannot happen |
| Daemon.StartedKeeps | ebpf/src/main.c:192-217 | On any bus, a successful startup satisfies the invariant with every LED known; on a healthy bus with a readable listing it succeeds |
| Daemon.WokenKeeps | ebpf/src/main.c:93-157 | One round of the loop, in dispatch order and under any faults, keeps the invariant of all machines at once, and ends the loop only on a signal, an error of poll or of a descriptor, a failed receive of hot-plug messages or a refused map update |
| Daemon.LoopKeeps | ebpf/src/main.c:98-156 | The same for any number of rounds |
| Daemon.WholeRun | ebpf/src/main.c:93-157 | Whole runs under arbitrary bus faults: at every return to poll active slots are present, blink as configured and are watched by the timer; updated LEDs show their policy; no traffic is stranded; the power LED keeps its state |
| Daemon.HealthyRun | ebpf/src/main.c:93-157 | Whole runs on a healthy bus: startup succeeds, and at every return to poll each disk LED shows exactly its slot, a present disk in its own colour if one is configured, the network LED is on exactly during a pulse, and the power LED shows its settings |
| Daemon.FailedRestoreIsReachable | ebpf/src/disk_led.c:403-416 | For every configuration that watches disks only, every disk and every device state, a run of startup, one event and one timer wake-up with the last five writes lost ends with the disk idle, the timer disarmed, the bus healthy and the LED blinking |
| Daemon.App.HandleEvent | ebpf/src/main.c:67-91 | Dispatches a ring record to its machine, ignores malformed, unknown and disabled ones |
| Daemon.App.HandleNetworkTimer | ebpf/src/main.c:125-129 | Runs the network handler when its timer has expired |
| Daemon.App.HandleDiskTimer | ebpf/src/main.c:130-134 | Runs the disk handler when its timer has expired |
| Daemon.App.HandleUevents | ebpf/src/disk_led.c:438-461 | A failed receive returns before any rescan; otherwise rescan, then resync: on success the kernel maps are exactly the present slots, and every target ever set is among them if and only if those set before are; without a kernel fault it succeeds; without a relevant message the maps are left alone |
| Daemon.App.HandleBatch | ebpf/src/main.c:140-149 | Consumes the whole batch, then renders once |
| Daemon.App.ApplyPower | ebpf/src/power_led.c:4-32 | Computes the specification of `PowerAppliedKeeps` in place |
| Daemon.App.InitLeds | ebpf/src/main.c:192-217 | The three initialisations in order, stopping at the first error, compute the function that `StartedKeeps` is about |
| Daemon.App.Start | ebpf/src/main.c:192-237 | Startup on the live objects: power, disks, network, the collectors, then the first resync; on success it has computed the state of `StartedKeeps`, the loop invariant holds, every LED is known, the kernel maps are exactly the slots and everything is addressed right; it fails when the collectors cannot be started |
| Daemon.App.Round | ebpf/src/main.c:113-156 | One round over the live objects is the step that the lemmas of `Rounds` are about, with kernel maps safe throughout; after hot-plug messages the maps are those of the slots at the end of the round, and without them they are left alone |
| Daemon.App.RunEventLoop | ebpf/src/main.c:93-157 | The loop performs exactly the run of `HealthyRun` and `WholeRun`, with the kernel's answers to its map updates; it never loses the invariant that startup establishes, and keeps running while nothing stops it and there is no kernel fault |
| Daemon.RunDaemon | ebpf/src/main.c:172-248 | Opening, startup and loop in a row compute the startup and the run that the lemmas are about; nothing is touched when a descriptor cannot be opened; without kernel faults startup succeeds if its LED updates do, and if nothing stops it the program is still running |
| Rounds.GoesOnIff | ebpf/src/main.c:113-155 | A round goes on if and only if there is no error of poll or on a descriptor, no signal, and hot-plug messages can be received and their resync is accepted; after an error of poll or a signal nothing is handled any more |
| Rounds.BatchCollects | ebpf/src/main.c:76-81 | Consuming a batch adds the received bytes of its network events to the pending received and the sent to the pending sent bytes, whatever their order and whatever else is in it, up to the largest 64-bit number |
| Rounds.NetworkRound | ebpf/src/main.c:125-149 | On any bus, the network machine and its LED after a round: the timer part ends or renews a pulse exactly when the timer has expired, then the batch prolongs nothing and begins a pulse if the LED is dark |
| Rounds.PulseEndsOnTime | ebpf/src/network_led.c:121-141 | When poll returns after the end of a pulse and nothing is pending, the LED goes dark if and only if one of five attempts is applied; with traffic pending the next pulse begins in its colour, and ends after the configured time |
| Rounds.PulseLasts | ebpf/src/network_led.c:74-75 | Before its end nothing ends or changes a pulse, on any bus; traffic accumulates |
| Rounds.TrafficBeginsPulse | ebpf/src/main.c:140-149 | With the LED dark, a batch with traffic begins a pulse at once, for exactly the bytes of the batch; a batch without traffic leaves the LED alone |
| Rounds.BatchTouches | ebpf/src/main.c:83-88 | Consuming a batch moves the deadline of a present disk to the hold time after the last of its events, makes it active as far as the bus lets it, and leaves every other slot alone |
| Rounds.DiskRound | ebpf/src/main.c:130-149 | On any bus, a slot after a round: idle if the timer has expired and its deadline come, then replaced as the listing says, then touched by the events of the batch, in this order |
| Rounds.IdleDisksAreRestored | ebpf/src/disk_led.c:393-418 | In the round in which poll returns at or after a slot's deadline that slot goes idle and, on a healthy bus, its LED shows it; a slot with a later deadline stays as it is |
| Rounds.HotplugShowsListing | ebpf/src/disk_led.c:438-461 | After hot-plug messages, on any bus and whatever else the round brings, a slot has a disk if and only if one is listed for it, and then the first; on a healthy bus the LED of an empty slot is off and that of a new disk steady in its own colour |
| Rounds.SyncedShowsListing | ebpf/src/disk_led.c:331-348 | Maps that are those of the slots then send exactly the first listed device of each bay, and no other, to the LED of that bay |
| Rounds.ActivityBlinks | ebpf/src/main.c:83-88 | On a healthy bus a batch with events of a present disk makes its LED blink with the configured times until the hold time after the last event; events of an empty slot leave its LED off |
| Rounds.RoundIsFlow | ebpf/src/main.c:113-149 | Every round of the daemon, on any bus and whatever it does to other LEDs, is a run of `NetworkFlow` from the same network machine that takes the samples of the batch off the ring |
| Rounds.LoopIsFlow | ebpf/src/main.c:93-157 | Every whole run of the daemon is such a run |
| Rounds.DaemonColors | ebpf/README.md:46-47 | So in every run of the daemon over samples of the collector, the RX pulses among mixed samples are the rounded sum of their RX shares, and every byte that the collector has seen is in exactly one place |
| EndToEnd.RequestIsAddressed | ebpf/bpf/disk.bpf.c:29-50 | After a resync an undisturbed due request on any CPU to the device of a slot puts exactly one event on the ring, with that slot's LED |
| EndToEnd.EventsAreAddressed | ebpf/bpf/disk.bpf.c:29-50 | In every interleaving of any number of CPUs with any number of resyncs that ends with the maps of the slots, and in which every target ever set is still in them, each event on the ring comes from the device of a present slot and carries that slot's LED |
| EndToEnd.OtherRequestsAreIgnored | ebpf/bpf/disk.bpf.c:29-31 | A request to a device behind no slot changes nothing |
| EndToEnd.EventLightsItsSlot | ebpf/src/main.c:83-88 | Its event makes that slot's LED blink with the configured times and changes no other slot or LED |
| EndToEnd.RequestLightsItsSlot | ebpf/README.md:58-64 | From the tracepoint to the light: an undisturbed due request on any CPU makes exactly the LED of its own slot blink |
| EndToEnd.EveryEventLightsItsSlot | ebpf/src/main.c:83-88 | Under the same condition, which is exact, each event on the ring makes exactly the slot of its device blink when it is handled |
| EndToEnd.ReplacedDiskLightsItsSuccessor | ebpf/src/main.c:135-149 | When a disk is replaced, a run exists that ends synchronised, with all CPUs idle and an event of the old disk on the ring, which belongs to no slot and lights the new disk's |
| EndToEnd.ConfiguredColorsAreShown | ebpf/README.md:56-57 | For every accepted configuration and every run on a healthy bus, at every return to poll the LED of each present disk has the colour of the last line that sets it for that disk, or else of the last line for all disks |
| EndToEnd.SyncedIsReady | ebpf/src/disk_led.c:331-348 | With the CPUs at rest and the ring drained after a resync, the flicker bound applies to every idle disk |
| Cli.StatusRoundTrip | cli/ugreen_leds.cpp:56-84 | Reading back any LED state is exact, except that the all-zero state reads as unavailable |
| Cli.AvailableIff | cli/ugreen_leds.cpp:56-84 | Eleven bytes are taken for a status if and only if they are the block of some LED state other than the all-zero one |
| Cli.BlinkRoundTrip | cli/ugreen_leds.cpp:109-118 | For all 16-bit times, wrapped sums included, set_blink or set_breath followed by get_status returns the same pair and keeps colour and brightness |
| Kmod.ProbeLearns | kmod/led-ugreen.c:72-116 | Decoding a status block learns the whole LED state, and fails if and only if the block is all zero |
| Kmod.HealthyRequest | kmod/led-ugreen.c:181-258 | On a healthy bus every request brings the device to its target and keeps the cache in step, although hits send nothing |
| Kmod.HealthyRun | kmod/led-ugreen.c:181-258 | The same for any sequence of requests |
| Kmod.SkipsIff | kmod/led-ugreen.c:181-258 | A request sends nothing if and only if the cached state already is what it asks for, and then changes nothing |
| Kmod.RequestStaysInSync | kmod/led-ugreen.c:181-258 | From a state in step, under any faults, cache and device agree after a request if and only if each command it sends has, in the outcomes ahead, an acknowledged attempt or no applied one |
| Kmod.UnheardCommandStrandsModule | kmod/led-ugreen.c:132-193 | Five applied but unacknowledged commands leave the module out of step for good on a working bus; the daemon's controller repairs the same history |
| Kmod.ClampIsNearest | kmod/led-ugreen.c:287-294 | The clamp gives the nearest supported delay |
| Kmod.BlinkReportsWhatWasSent | kmod/led-ugreen.c:296-315 | The clamped cycle never leaves 16 bits; 0 together with the clamped delays is reported if and only if the LED blinked that way before or one of five attempts is acknowledged, and then the device has them |
| Kmod.ZeroMeansSentIff | kmod/led-ugreen.c:308-314 | On a given bus 0 means so if and only if one of these two holds or one of five attempts is acknowledged |
| Kmod.ZeroTrustworthyIff | kmod/led-ugreen.c:308-314 | 0 means that the reported delays were sent on every bus if and only if the LED did not blink before the call or blinked that way already |
| Kmod.ZeroWithoutEffect | kmod/led-ugreen.c:308-314 | When 0 does not mean that the reported delays were sent, the call has returned 0 with the old delays and changed nothing in the cache |
| Kmod.UgreenLedArray.ChangeStateRobust | kmod/led-ugreen.c:132-159 | The retry loop computes the specification that `Mcu.SendEffect` is about |
| Kmod.UgreenLedArray.TurnOnOrOff | kmod/led-ugreen.c:181-193 | Computes the on/off request of `HealthyRequest` in place and no other LED's state |
| Kmod.UgreenLedArray.SetBrightness | kmod/led-ugreen.c:195-214 | Computes the brightness request in place, turning an LED that is off on |
| Kmod.UgreenLedArray.SetColor | kmod/led-ugreen.c:216-234 | Computes the colour request in place; black turns the LED off |
| Kmod.UgreenLedArray.SetBlinkOrBreath | kmod/led-ugreen.c:236-258 | Computes the blink or breath request in place |
| Kmod.UgreenLedArray.SetBlink | kmod/led-ugreen.c:296-315 | Clamps, requests, and reports the cached delays as `BlinkReportsWhatWasSent` describes |
| ConfigText.QuotingRoundTrip | ebpf/src/config.c:71-95 | Any value without the chosen quote survives quoting exactly, with padding and a comment around it, inner spaces, `#` and the other quote included |
| ConfigText.PlainRoundTrip | ebpf/src/config.c:71-95 | A trimmed value without quotes or `#` survives unquoted |
| ConfigText.LineRoundTrip | ebpf/src/config.c:229-237 | Writing key, equals sign and quoted value with any padding and comment and reading the line back gives the same key and value |
| ConfigText.OnlyTheseAreTrimmed | ebpf/src/config.c:58-69 | Blanks, tabs, line ends, vertical tabs and form feeds are trimmed, and no other character |
| ConfigText.SkippedLines | ebpf/src/config.c:229-234 | Comments, declarations and lines without an equals sign are skipped, however they are indented |
| ConfigText.TrimInPlace | ebpf/src/config.c:58-69 | Moving the pointer and the terminator trims the C string and changes no other byte |
| ConfigText.CutComment | ebpf/src/config.c:77-85 | The quote-tracking scan cuts the string at the first `#` outside quotes |
| ConfigText.ConfigValueInPlace | ebpf/src/config.c:71-95 | The whole in-place parser computes the value that the round trips are about |
| Serials.SerialsRoundTrip | ebpf/src/config.c:121-144 | Joining up to eight tokens shorter than 128 with any separators and parsing gives them back in order with the other slots empty; more tokens or a longer one are rejected, and nothing else is |
| Serials.OnlyTheseSeparate | ebpf/src/config.c:131-132 | Serial numbers are separated by blanks, tabs and commas, and by no other character |
| Serials.CanonicalForm | ebpf/src/config.c:131-141 | Rewriting the tokens of any text with other separators parses to the same result |
| Serials.JoinRoundTrip | ebpf/src/config.c:131-132 | Tokenising inverts joining for any number of tokens |
| Serials.ParseSerials | ebpf/src/config.c:121-144 | The loop over the slot array accepts and stores exactly what the round trip says |
| ConfigRules.NumberRoundTrip | ebpf/src/config.c:13-25 | A printed number is read back if and only if it is in range |
| ConfigRules.NegativeNumbers | ebpf/src/config.c:19-22 | A negative number is accepted if and only if its 64-bit negation is in range |
| ConfigRules.Load | ebpf/src/config.c:210-308 | Applying assignments one after another stops at the first error, invalid mapping methods and serial lists included |
| ConfigRules.MappingIsChecked | ebpf/src/config.c:97-108 | A mapping method anywhere in the configuration is accepted if and only if it is ata, hctl or serial, and then plays no part in the other settings |
| ConfigRules.SerialsAreChecked | ebpf/src/config.c:121-144 | So is a list of serial numbers if and only if it has at most eight, each shorter than 128 |
| ConfigRules.LastLineDecides | ebpf/README.md:136 | In whatever is loaded, the last line of each setting is in force, in the file and on the command line after it |
| ConfigRules.DiskColorsLoaded | ebpf/src/config.h:65-70 | In whatever is loaded the colour of each disk is that of its last override, if it has one, and the colour of all disks that of the last line for it, or white |
| ConfigRules.DocumentedDefaults | ebpf/README.md:109-131 | The documented defaults are the real ones: a file that sets them all is read like an empty one, whatever lines and options follow |
| ConfigRules.LoadedInRange | ebpf/src/config.c:239-300 | After any mix of lines and options every setting is in its range |
| ConfigRules.AcceptedIsSafe | ebpf/src/config.c:460-464 | Whatever is accepted has positive blink times that sum to the interval, cycles that do not wrap for disk and power, blink calls that are never -EINVAL, and deadlines after their events |
| ConfigRules.WrittenIsAccepted | ebpf/src/config.c:356-465 | Every usable configuration can be written down and reading it back gives it exactly |
| ConfigRules.AcceptedIff | ebpf/src/config.c:460-464 | The configurations that can be accepted are exactly the usable ones |

## Left out

- Device files, ioctl, sleeps, sysfs, udev and DMI reads, netlink sockets, libbpf loading and TC attachment: environment choices. Sleeps succeed; reading a timer fails only with EAGAIN; the clock can be read.
- The microcontroller: its behaviour is that of the protocol tables of the top-level README; an acknowledgement of 1 means that the frame was applied, any other outcome may or may not have applied it.
- Rounding of `long double` in the scheduler: credits are exact reals.
- Times near 2^64 ns: clock readings stay below 2^62.
- Reuse of a BPF hash element after its deletion while a program still holds a pointer to it, and memory orderings weaker than the atomic compare-and-swap. Each map update makes a new generation of the state, and each generation has its own limit.
- DiskLimiter.UndisturbedRequest: the LED id is taken when the target is looked up; a rewrite of the same entry between lookup and output is not modelled.
- KernelMaps.BpfRuntime.ClearDiskTargets: deleting a key that is already gone does not occur, as only the daemon deletes; fetching the next key fails only when the map is empty; a map always exists.
- ConfigRules.LoadedInRange: the parsers of colours, booleans and interface names and the field scanning of `sscanf` enter as results; numbers, mapping methods and serial lists are parsed from text, but the last two are only checked, not stored.
- ConfigText.LineRoundTrip: one line at a time; reading lines from the file is not modelled.
- ConfigRules.NumberRoundTrip: `unsigned long` is 64 bits wide.
- Daemon.WokenKeeps: consuming the ring buffer does not fail, as the callback never returns an error; timers expire when poll returns, not between two handlers.
- NoFlicker.BlinksThroughBurst: one burst on one disk, without hot-plug of its own slot and without bus faults; a request is the start of a run of the collector; while its target is missing the daemon handles neither events nor its timer; requests, deliveries and wake-ups of other disks do not touch the slot; earlier emissions are not from the future.
- `ebpf/src/disk_layout.c` and serial matching: `device_slot` is an arbitrary slot or none for each directory entry.
- Daemon.App.Start: whether descriptors can be opened and collectors be loaded and attached are inputs; signal masks and memory limits are not modelled.
- Slot names, serials in slots and verbose logging have no effect on the LEDs.
- The command line tool's argument parsing, printing and its retry loop; the kernel module's probe loop, mutex and sysfs attributes; cleanup paths; shell scripts and monitors: plumbing without deep invariants.
