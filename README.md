# 88mph acquisition engine, modelled in Dafny

This project models the acquisition engine of the 88mph firmware for the
121GW multimeter (`EEVBlog/88mph/acquisition/acquisition.c`) and proves
properties of the model. The engine has four parts:

- **The readings queue.** This is an 8-slot circular buffer (`queue`, `q_head`, `q_tail`).
  Indices are kept modulo 8 with `& Q_MASK`, and one slot is always left free.
  A reading that arrives when the queue is full is dropped.
- **The acquisition job.** It reads and clears the HY3131's pending-interrupt flags and masks them with `curr_int_mask`.
  When AD1 survives the mask, it assembles the three AD1 data bytes into a sign-extended 24-bit sample.
  It then hands that sample to the active mode handler as a NEW_AD1 event.
- **The interrupt mask.**
  - It is mirrored in `curr_int_mask` and written to the chip's INTE register.
  - When the mask is non-zero, the chip's pending flags are flushed first.
  - The scheduler's enabled flag for the acquisition job is saved and restored around the change.
- **The mode dispatcher.**
  - `acq_set_mode` sends STOP to the old handler and then START to the new one.
  - `acq_set_submode` sends SET_SUBMODE to the active handler.
  - `acq_init` powers the chip up and starts the built-in misc ("off") handler; `acq_deinit` switches to misc, then drops the handler and powers the chip down.
  - The misc handler turns interrupts off and empties the queue.

Files:

- `ad1_data.dfy` (module `Ad1Data`): the pure sample decoding as a function on `bv8` bytes and `bv32` words.
  It comes with the decoding's integer meaning and an inverse (`EncodeAd1`) that proves no information is lost.
- `protocol.dfy` (module `Protocol`): what handlers see.
  Each call `handler(event, value)` is a `Delivery`.
  A small automaton (`PhaseAfter`) gives the discipline of one engine session:
  - START opens a handler, and STOP closes the open one;
  - SET_SUBMODE and NEW_AD1 go only to the open handler.
  Lemmas derive the ordering guarantees from this automaton.
- `acquisition.dfy` (module `Acquisition`): the engine as a class, `Engine`.
  - Its fields are the active handler, the mask, the abstract chip (INTF, INTE, AD1 bytes), the job-enabled flag, and the queue (an `array` with two indices).
  - A ghost sequence of buffered readings refines the array and its indices.
  - A ghost trace records every handler call, and a ghost log records power sequencing, the settling delay, and chip init/deinit.
  - What a mode handler does back into the engine is a sequence of `Effect`s.
    - For the misc handler the effects are fixed by its source.
    - For every other handler they are a parameter, `Config.behaviour`.
  - Each engine method that makes handler calls states its new `View` (mask, chip, readings, measurement flag) through `ApplyEffects`, a function on the abstract `View` of the state, or through the closed form `MiscQuiesces` gives for the misc handler.
- `scenarios.dfy` (module `Scenarios`): verified call sequences (scenarios) on a concrete configuration.
  The scenarios are:
  - init ignoring pending flags;
  - a sample travelling from the chip to the queue;
  - deinit silencing the job;
  - re-init after deinit;
  - FIFO order;
  - dropping on a full queue;
  - clear then get.
- `wrappers.dfy`: `Option`.

Every stretch that the source runs with interrupts or the acquisition job disabled is one atomic step here. The model is sequential.

Two behaviours of the code are worth stating because a reader might expect otherwise. The model follows the code in both.

1. **Misc is started twice across `acq_deinit` and `acq_init`.**
   Within `acq_set_mode` every START is preceded by a STOP to the handler it replaces (lines 110-116).
   Across a deinit and a re-init this pairing does not hold:
   - `acq_deinit` switches to misc through `acq_set_mode` (line 57), so misc receives START.
   - It then nulls the handler pointer (line 59).
   - `acq_init` starts misc again directly (lines 49-50), with no STOP, as its comment at lines 47-48 explains: there is no previous handler to call.

   The STOP/START ordering is therefore stated and proved per session, meaning the deliveries since the last `acq_init` (`Engine.sessionStart`).
   `Scenarios.ReinitStartsMiscTwice` exhibits the whole two-session trace and proves it is not well formed in one session.
2. **No handler is held after `acq_deinit`.**
   The comment at line 56 speaks of switching to "off", but line 59 then clears the handler pointer.
   So after `Engine.Deinit` the field `active` is `None`, not the misc handler.
   Any later `acq_set_mode`, `acq_set_submode` or `acq_deinit` must wait for an `acq_init`, which these members require.

## Model

| member | source | states |
|---|---|---|
| Ad1Data.DecodeAd1 | EEVBlog/88mph/acquisition/acquisition.c:82-86 | The value handed to the handler is the bytes' unsigned value `b2*65536 + b1*256 + b0` when `b2 < 0x80`, and that minus 2^24 otherwise. It always lies in [-2^23, 2^23), and it is negative exactly when the top bit of `b2` is set. |
| Ad1Data.EncodeAd1 | EEVBlog/88mph/acquisition/acquisition.c:82-86 | Every 24-bit two's-complement value has bytes from which the job decodes exactly that value. |
| Ad1Data.EncodeDecode | EEVBlog/88mph/acquisition/acquisition.c:82-86 | Decoding then re-encoding gives back the bytes read from the chip, so the decoding is injective. |
| Ad1Data.EncodeDigits | EEVBlog/88mph/acquisition/acquisition.c:82 | The three bytes of a 24-bit unsigned number are its base-256 digits, low byte first, and they reassemble to the number. |
| Ad1Data.DecodeExamples | EEVBlog/88mph/acquisition/acquisition.c:82-86 | [0x34,0x12,0x00] decodes to 0x1234, [0x00,0x00,0x80] to -8388608, and [0xFF,0xFF,0xFF] to -1. |
| Protocol.StartsSeparatedByStop | EEVBlog/88mph/acquisition/acquisition.c:108-118 | Within a well-formed session, any two START deliveries have a STOP between them. |
| Protocol.DeliveredAfterStart | EEVBlog/88mph/acquisition/acquisition.c:88 | Within a well-formed session, every delivery goes to a handler that received a START at or before it. |
| Protocol.RunsUntilStop | EEVBlog/88mph/acquisition/acquisition.c:120-125 | A handler that is open stays open until a STOP is delivered. |
| Protocol.Transition | EEVBlog/88mph/acquisition/acquisition.c:112-116 | STOP to the open handler followed by START to another leaves the other one open. |
| Protocol.BrokenIsFinal | EEVBlog/88mph/acquisition/acquisition.c:108-125 | Once the delivery discipline is broken, no later delivery repairs it. |
| Protocol.PrefixWellFormed | EEVBlog/88mph/acquisition/acquisition.c:108-125 | Every prefix of a well-formed session is well formed. |
| Acquisition.Wrap | EEVBlog/88mph/acquisition/acquisition.c:127-130 | `i & Q_MASK` for an index from 0 to 8 is `i` below 8 and wraps 8 to 0. |
| Acquisition.Fires | EEVBlog/88mph/acquisition/acquisition.c:76-79 | NEW_AD1 fires only when the AD1 bit is set both in the pending flags and in the mask, and exactly then for a single-bit source. It never fires with mask 0 or with no pending flags. |
| Acquisition.EffectsKeepInvariant | EEVBlog/88mph/acquisition/acquisition.c:92-106 | Whatever sequence of engine calls a handler makes, the mask stays equal to the chip's INTE register and the queue holds at most 7 readings. |
| Acquisition.EffectsKeepAd1 | EEVBlog/88mph/acquisition/acquisition.c:92-106 | No engine call a handler can make changes the AD1 data registers. |
| Acquisition.MiscQuiesces | EEVBlog/88mph/acquisition/acquisition.c:181-185 | For any event, the misc handler sets the mask and INTE to 0 and empties the queue. Everything else, including the pending flags, is unchanged. |
| Acquisition.DeliverToActive | EEVBlog/88mph/acquisition/acquisition.c:88 | SET_SUBMODE or NEW_AD1 to the engine's active handler keeps the session well formed, with that handler still open. |
| Acquisition.SwitchActive | EEVBlog/88mph/acquisition/acquisition.c:108-118 | A mode change keeps the session well formed, with the new handler open. |
| Acquisition.OpenSession | EEVBlog/88mph/acquisition/acquisition.c:49-50 | The direct START in `acq_init` opens a well-formed session with the misc handler open. |
| Acquisition.Engine.Count | EEVBlog/88mph/acquisition/acquisition.c:143 | The number of buffered readings is `(head - tail)` modulo 8, and it is 0 exactly when head equals tail. |
| Acquisition.Engine.constructor | EEVBlog/88mph/acquisition/acquisition.c:32-33 | At reset there is no handler, the mask is 0, the queue is empty with both indices 0, and the engine invariant holds. |
| Acquisition.Engine.JobDisable | EEVBlog/88mph/acquisition/acquisition.c:94 | Disabling the job returns whether it was enabled, and leaves it disabled. |
| Acquisition.Engine.JobResume | EEVBlog/88mph/acquisition/acquisition.c:105 | Resuming re-enables the job if it had been enabled, and otherwise leaves it as it is. |
| Acquisition.Engine.ReadIntf | EEVBlog/88mph/acquisition/acquisition.c:76 | Reading INTF returns the pending flags and clears them in the chip. |
| Acquisition.Engine.PutReading | EEVBlog/88mph/acquisition/acquisition.c:137-152 | When `(head+1)&7 != tail`, the reading is stored at `queue[head]`, head advances to `(head+1)&7`, and the abstract queue gains the reading at its end. Otherwise head, tail and the buffer are unchanged and the reading is dropped. The full case is exactly the case of 7 buffered readings. The measurement job is scheduled either way. |
| Acquisition.Engine.GetReading | EEVBlog/88mph/acquisition/acquisition.c:156-169 | It returns nothing exactly when head equals tail, which is exactly when the queue is empty, and then changes nothing. Otherwise it returns `queue[tail]`, which is the oldest reading, removes it, and advances tail to `(tail+1)&7`. |
| Acquisition.Engine.ClearReadings | EEVBlog/88mph/acquisition/acquisition.c:172-178 | Head and tail become 0 and the queue is empty. |
| Acquisition.Engine.SetIntMask | EEVBlog/88mph/acquisition/acquisition.c:92-106 | The mask and the chip's INTE both become `mask`. The pending flags are cleared exactly when `mask != 0`. The AD1 data and the job-enabled flag are as before. |
| Acquisition.Engine.Perform | EEVBlog/88mph/acquisition/acquisition.c:183-184 | One engine call made from inside a handler acts on the state as `ApplyEffect` says, and it leaves the job-enabled flag as it was. |
| Acquisition.Engine.Call | EEVBlog/88mph/acquisition/acquisition.c:50 | Calling `h(event, value)` records the delivery and applies the handler's calls in order, and the job-enabled flag ends as it started. |
| Acquisition.Engine.HandleJobAcquisition | EEVBlog/88mph/acquisition/acquisition.c:70-90 | The pending flags are always cleared. NEW_AD1 with the decoded sample goes to the active handler exactly when the AD1 bit is set in both the pending flags and the mask. Otherwise nothing is delivered and nothing else changes. The engine invariant is kept. |
| Acquisition.Engine.DeliverSample | EEVBlog/88mph/acquisition/acquisition.c:79-89 | The active handler receives NEW_AD1 with the value decoded from the AD1 registers, and its calls take effect. |
| Acquisition.Engine.SetMode | EEVBlog/88mph/acquisition/acquisition.c:108-118 | The old handler receives STOP(0), then `acq_mode_funcs[mode]` receives START(submode) and becomes the active handler. Both handlers' calls take effect in that order. The job-enabled flag ends as it was, even though the handlers call `job_disable`/`job_resume` again through nested `acq_set_int_mask` calls, which leave the job disabled. The session stays well formed. |
| Acquisition.Engine.SetSubmode | EEVBlog/88mph/acquisition/acquisition.c:120-125 | The active handler receives SET_SUBMODE(submode) and stays active. The job-enabled flag is restored. |
| Acquisition.Engine.Init | EEVBlog/88mph/acquisition/acquisition.c:36-52 | The steps are logged in order: digital supply on, analog supply on, a 10 ms delay, chip init. Misc becomes active and receives START(off), which opens a new session. Afterwards the mask and INTE are 0, the queue is empty, and the rest of the chip (pending flags, AD1 data), the job flag and the measurement flag are unchanged. |
| Acquisition.Engine.Deinit | EEVBlog/88mph/acquisition/acquisition.c:55-66 | There is a mode change to misc/off: STOP to the old handler, then START to misc. The new state is the old handler's STOP effects followed by misc's: the mask and INTE are 0, the queue is empty, and the pending flags and measurement flag are whatever the old handler's STOP left. The AD1 data is unchanged. Afterwards no handler is held. Chip deinit, analog supply off and digital supply off are logged in that order. |
| Scenarios.InitIgnoresPending | EEVBlog/88mph/acquisition/acquisition.c:36-52 | After `acq_init` a pending AD1 flag is discarded by the job: no reading is queued, and misc's START is the only delivery. |
| Scenarios.StartMeasuring | EEVBlog/88mph/acquisition/acquisition.c:108-118 | `acq_init` followed by a switch to a measuring mode leaves that mode active with the AD1 interrupt enabled and the queue empty. |
| Scenarios.SampleReachesQueue | EEVBlog/88mph/acquisition/acquisition.c:70-90 | A sample the chip converts reaches the queue decoded, and a get returns it. |
| Scenarios.DeinitSilencesJob | EEVBlog/88mph/acquisition/acquisition.c:55-66 | After `acq_deinit` no handler is held, and the job delivers nothing even when the chip raises AD1. |
| Scenarios.ReinitStartsMiscTwice | EEVBlog/88mph/acquisition/acquisition.c:36-66 | init, deinit, init gives back the first init's state: misc active, mask 0, queue empty. The misc handler has then received START twice with no STOP between. |
| Scenarios.QueueIsFifo | EEVBlog/88mph/acquisition/acquisition.c:137-169 | Two readings come out in the order they went in, and then the queue reports empty. |
| Scenarios.Fill | EEVBlog/88mph/acquisition/acquisition.c:137-152 | Putting fewer than 8 readings into an empty queue buffers them all, in order. |
| Scenarios.Drain | EEVBlog/88mph/acquisition/acquisition.c:156-169 | Getting until the queue reports empty yields exactly the buffered readings, oldest first. |
| Scenarios.FullQueueDrops | EEVBlog/88mph/acquisition/acquisition.c:143-147 | With 7 readings buffered, an 8th is dropped, and draining yields the 7 in order. |
| Scenarios.ClearThenGet | EEVBlog/88mph/acquisition/acquisition.c:172-178 | A get right after a clear finds nothing, whatever the queue held. |

## Left out

- **Interrupts and preemption.** `__disable_irq`/`__enable_irq` and preemption by the job are left out.
  Each critical section is one atomic step, and nothing is claimed about interleavings.
  The `volatile` qualifiers therefore have no counterpart.
- **Power and delay.** GPIO power sequencing (`GPIO_PINSET`/`GPIO_PINRST`) and `HAL_Delay(10)` are entries of a ghost log (`Engine.hardware`); their physical effect is not modelled.
- **Chip driver.** The internals of `hy_init`, `hy_deinit`, `hy_read_regs` and `hy_write_regs` are not part of this model.
  The chip is abstract: INTF is cleared when read, INTE holds what was written, and AD1 holds three data bytes.
  `hy_init` and `hy_deinit` are assumed to leave these registers unchanged.
  The chip's own conversions are the method `Engine.Convert`, which the scenarios call. It stands for hardware and is not part of the source.
- **Scheduler.** The implementation of `job_disable`, `job_resume` and `job_schedule` is left out.
  Only the enabled flag is modelled, together with a ghost "measurement scheduled" flag that `acq_put_reading` sets.
- **Header constants and other handlers.** `acq_modes.h` and `hy3131.h` are not part of this model.
  Their constants are fields of `Config`:
  - the registry `acq_mode_funcs`;
  - `ACQ_MODE_MISC`;
  - `ACQ_MODE_MISC_SUBMODE_OFF`;
  - the AD1 interrupt bit.

  The handlers other than misc are abstract ids. What they call back into the engine is the parameter `Config.behaviour`, and it is limited to `acq_set_int_mask`, `acq_put_reading` and `acq_clear_readings`.
  Because `Config.behaviour` depends only on the handler id, the event and the value, two kinds of handler cannot be expressed: one whose response depends on its own private state (such as a submode saved at START), and one that writes chip registers itself. The proved properties (`EffectsKeepInvariant`, the session lemmas) hold for every effect sequence, so none of them relies on this restriction.
  A handler that calls `acq_set_mode` or `acq_set_submode` from inside itself is not modelled.
- **Integer widths.** The submode and event values are unbounded integers.
  The widths of `acq_submode_t` and of the `int64_t` parameter are not modelled. The 24-bit sample always fits in them.
- **Undefined inputs.** An out-of-range `mode` is undefined in the code, and so is calling `acq_set_mode`, `acq_set_submode` or `acq_deinit` while no handler is held (a call through a null pointer).
  These are preconditions of `Engine.SetMode`, `Engine.SetSubmode` and `Engine.Deinit`.
- Acquisition.Engine.HandleJobAcquisition: requires that AD1 does not fire while no handler is held, because the code would then call through a null pointer.
  `Engine.Deinit` sets the mask to 0, so the job called after it always meets this requirement.
- Acquisition.Engine.constructor: assumes the chip's INTE is 0 at reset, the state in which the static `curr_int_mask = 0` mirrors it.
- **Direct calls from interrupt context.** Calls to `acq_put_reading` from jobs other than a handler's NEW_AD1 are modelled only as direct calls of `Engine.PutReading`.
- **Other files.** `EEVBlog/88mph/hardware/lcd_tables.c` holds constant display tables with no behaviour, and it is not modelled.
