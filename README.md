# I2C interrupt-handler state machines of the MSP432 DriverLib examples

This project models three I2C example programs for the MSP432 eUSCI_B0 module in Dafny.

Each program has a foreground `main` loop and an `EUSCIB0_IRQHandler`. The handler reacts to one latched interrupt status at a time. It updates a few statics: a byte counter or index, a data buffer and some flags. Without the DriverLib calls, what is left is a small state machine. The model states that machine exactly and proves what it does over any sequence of interrupt events.

- `MultiSlaveMaster` (`multislave_master.dfy`) is the multi-slave master transmitter.
  - The foreground loads `TXByteCtr = 4`, picks slave 0x48 or 0x49 from the `sendToSlaveAddress2` flip-flop, and sends `TXData++` with a START.
  - It then sleeps until `sendStopCondition` is raised.
  - The handler re-issues START on a NACK. Otherwise it sends `TXData++` while the counter is non-zero. At zero it requests STOP, raises the flag and toggles the flip-flop.
- `RepeatedStartMaster` (`repeated_start_master.dfy`) is the repeated-start master reader.
  - The foreground writes `TXData[0]` (0x04), resets `xferIndex` and restarts as receiver. It then sleeps with sleep-on-exit set.
  - The handler stores each received byte at `RXData[xferIndex++]`.
  - When it sees `xferIndex == NUM_OF_REC_BYTES - 2`, it first swaps the receive interrupt for the stop interrupt and requests STOP, then reads the byte.
  - The stop interrupt disables itself and clears sleep-on-exit.
- `SlaveReceiver` (`slave_receiver.dfy`) is the slave receiver.
  - The handler writes each byte into a 4-entry ring buffer.
  - It wraps `xferIndex` to 0 when the index reaches `NUM_OF_RX_BYTES`.
- `I2cTypes` (`i2c_types.dfy`) holds the shared types: the 8-bit `uint8_t` with its wrap-around increment, and the 7-bit slave address.

The two masters record the requests they make to the module (START with a byte, next byte, STOP, read) as a ghost trace of `Action`s, in program order.

Each program has the same structure:
- The statics are a value datatype (`Master`, `Reader`, `Slave`).
- Each step is a pure function (`Begin`, `Interrupt`).
- A foreground wait is a function (`Await`, `Sleep`, `Receive`). Each event in a finite sequence triggers one handler run. An iteration that runs out of events while still waiting counts as not completed.
- A master's `while (1)` loop is `MainLoop`, over `n` iterations. The slave's, which only sleeps, is `Receive`.

A class with the program's statics as fields implements the same steps in place. `RXData` is an `array`, and the class methods are proved equal to the functions. The properties are lemmas about the functions.

The code stores 9 bytes per transfer, not 10, and the model follows the code. The reader's general description says the loop receives `NUM_OF_REC_BYTES` (10) bytes. But the handler turns the receive interrupt off when it reads the byte at index 8. The stop interrupt then ends the transfer, so `RXData[9]` is never written. See `TransferStores` and `LastEntryStaysZero`.

## Model

Source cells give paths relative to the repository root.

| member | source | states |
|---|---|---|
| MultiSlaveMaster.Interrupt | examples/i2c_master_w_multibyte_multislave-master_code/i2c_master_w_multibyte_multislave-master_code.c:150-172 | A NACK re-issues START and changes no static. Otherwise, exactly when the counter is non-zero, the handler sends the current `TXData`, increments it mod 256 and decrements the counter. Exactly when the counter is 0 it requests STOP, raises `sendStopCondition` and toggles the flip-flop. |
| MultiSlaveMaster.AwaitSendsRemaining | examples/i2c_master_w_multibyte_multislave-master_code/i2c_master_w_multibyte_multislave-master_code.c:135-139 | A wait started with the flag false sends the bytes still counted, as consecutive `TXData` values, then exactly one STOP. It stops exactly when more non-NACK events arrive than bytes remain, and the last event it consumes is the one that requested STOP. Otherwise it consumes all events, and the counter drops by the number of non-NACK events. NACKs only add START retries. |
| MultiSlaveMaster.AwaitKeepsCounter | examples/i2c_master_w_multibyte_multislave-master_code/i2c_master_w_multibyte_multislave-master_code.c:162-165 | During a wait the counter never grows and stays in 0..4, because the handler decrements it only when it is non-zero. |
| MultiSlaveMaster.SessionKeepsCounter | examples/i2c_master_w_multibyte_multislave-master_code/i2c_master_w_multibyte_multislave-master_code.c:115-142 | Over any number of foreground iterations the counter stays in 0..4. |
| MultiSlaveMaster.TransferWritesFourBytes | examples/i2c_master_w_multibyte_multislave-master_code/i2c_master_w_multibyte_multislave-master_code.c:115-142 | One iteration completes exactly when four non-NACK events arrive. Ignoring NACK retries, it then requests exactly START(slave from the flip-flop, b), Next(b+1), Next(b+2), Next(b+3), STOP, and ends with `TXData` = b+4, counter 0, flag false and flip-flop toggled. An unfinished iteration consumes all events, sends one byte per non-NACK event and leaves the flip-flop alone. |
| MultiSlaveMaster.IterationStarts | examples/i2c_master_w_multibyte_multislave-master_code/i2c_master_w_multibyte_multislave-master_code.c:126-141 | An iteration makes exactly one START, to the slave the flip-flop selects. Afterwards `sendStopCondition` is false, and the flip-flop has toggled exactly when the iteration completed. |
| MultiSlaveMaster.IterationPayload | examples/i2c_master_w_multibyte_multislave-master_code/i2c_master_w_multibyte_multislave-master_code.c:132-133 | The data bytes of an iteration are consecutive values of `TXData` mod 256, and `TXData` ends past them. A completed iteration sends exactly four. |
| MultiSlaveMaster.TransfersAlternate | examples/i2c_master_w_multibyte_multislave-master_code/i2c_master_w_multibyte_multislave-master_code.c:126-130 | Over any number of iterations, the START addresses alternate between 0x48 and 0x49, starting from the slave the flip-flop selects. |
| MultiSlaveMaster.TransfersCount | examples/i2c_master_w_multibyte_multislave-master_code/i2c_master_w_multibyte_multislave-master_code.c:115-142 | At most `n` transfers complete. Each iteration that runs makes one START: `n` if all complete, one more than the completed ones otherwise. |
| MultiSlaveMaster.TransfersToggle | examples/i2c_master_w_multibyte_multislave-master_code/i2c_master_w_multibyte_multislave-master_code.c:166-171 | After `n` completed transfers the flag is false and the flip-flop has toggled `n` times. |
| MultiSlaveMaster.TransfersSendConsecutiveBytes | examples/i2c_master_w_multibyte_multislave-master_code/i2c_master_w_multibyte_multislave-master_code.c:68 | Across transfer boundaries, all bytes written are consecutive values of `TXData` mod 256. |
| MultiSlaveMaster.TransfersAdvanceData | examples/i2c_master_w_multibyte_multislave-master_code/i2c_master_w_multibyte_multislave-master_code.c:132-133 | `n` completed transfers advance `TXData` by 4n mod 256. |
| MultiSlaveMaster.SessionFromReset | examples/i2c_master_w_multibyte_multislave-master_code/i2c_master_w_multibyte_multislave-master_code.c:68-71 | From `main`'s initialisation, the j-th START goes to 0x48 for even j and 0x49 for odd j, and the bytes written are 0, 1, 2, ... mod 256. |
| MultiSlaveMaster.Controller.constructor | examples/i2c_master_w_multibyte_multislave-master_code/i2c_master_w_multibyte_multislave-master_code.c:91-92 | The statics after `main`'s initialisation: flag and flip-flop false, counter and `TXData` 0, nothing requested yet. |
| MultiSlaveMaster.Controller.StartTransfer | examples/i2c_master_w_multibyte_multislave-master_code/i2c_master_w_multibyte_multislave-master_code.c:118-133 | Loading the counter, choosing the slave and sending `TXData++` with START leaves the statics and the trace as `Begin` says. The counter is then 3. |
| MultiSlaveMaster.Controller.OnInterrupt | examples/i2c_master_w_multibyte_multislave-master_code/i2c_master_w_multibyte_multislave-master_code.c:150-172 | The in-place handler leaves the statics and the trace as `Interrupt` says, and keeps the counter in 0..4. |
| MultiSlaveMaster.Controller.AwaitStop | examples/i2c_master_w_multibyte_multislave-master_code/i2c_master_w_multibyte_multislave-master_code.c:135-139 | The sleep loop leaves the statics, the trace and the number of events consumed as `Await` says. |
| MultiSlaveMaster.Controller.RunIteration | examples/i2c_master_w_multibyte_multislave-master_code/i2c_master_w_multibyte_multislave-master_code.c:115-142 | One loop iteration, with the flag cleared after a completed wait, leaves the statics and the trace as `LoopBody` says. |
| RepeatedStartMaster.Interrupt | examples/i2c_master_rw_repeated_start-master_code/i2c_master_rw_repeated_start-master_code.c:134-160 | A receive seen while the receive interrupt is on stores the byte at `xferIndex` and increments it; otherwise buffer and index are unchanged. STOP is requested exactly when that receive sees index 8, and then the requests are STOP before the read, receive off and stop on. A receive has priority over a latched stop. Sleep-on-exit is cleared, and the stop interrupt turned off, exactly by a stop seen with the stop interrupt on and no receive. An ordinary receive requests one read and any other event requests nothing, and the enable bits change only in the two cases above. Every store stays in bounds and `RXData[9]` is never written. |
| RepeatedStartMaster.Sleep | examples/i2c_master_rw_repeated_start-master_code/i2c_master_rw_repeated_start-master_code.c:126 | During the sleep, the buffer keeps its 10 entries and the index stays at most 8 while receive interrupts are on, so every store is in bounds. |
| RepeatedStartMaster.MainLoop | examples/i2c_master_rw_repeated_start-master_code/i2c_master_rw_repeated_start-master_code.c:111-127 | Over any number of iterations, the same bounds hold. |
| RepeatedStartMaster.StopPhase | examples/i2c_master_rw_repeated_start-master_code/i2c_master_rw_repeated_start-master_code.c:156-159 | Once STOP is requested, the foreground wakes if and only if some event latches stop, whatever else is latched. It wakes at the first such event, which is the last one consumed. Until then nothing is stored or requested. The wake-up turns the stop interrupt off and changes neither buffer nor index. |
| RepeatedStartMaster.ReceivePhaseCompletes | examples/i2c_master_rw_repeated_start-master_code/i2c_master_rw_repeated_start-master_code.c:142-159 | While receiving, the foreground wakes exactly when a stop is latched after all pending bytes arrived. |
| RepeatedStartMaster.ReceivePhaseWakes | examples/i2c_master_rw_repeated_start-master_code/i2c_master_rw_repeated_start-master_code.c:142-159 | While receiving, the last event consumed is the first one that latches stop after all pending bytes arrived. Every earlier event that latches stop came before all of them had arrived. |
| RepeatedStartMaster.ReceivePhaseStores | examples/i2c_master_rw_repeated_start-master_code/i2c_master_rw_repeated_start-master_code.c:152-154 | While receiving, the received bytes are stored in arrival order from `xferIndex` up to index 8. The index advances by their number, and no other entry changes. |
| RepeatedStartMaster.ReceivePhaseRequests | examples/i2c_master_rw_repeated_start-master_code/i2c_master_rw_repeated_start-master_code.c:143-154 | While receiving, the requests are one read per stored byte, with STOP requested just before the read of the byte at index 8. |
| RepeatedStartMaster.ReceivePhaseEnds | examples/i2c_master_rw_repeated_start-master_code/i2c_master_rw_repeated_start-master_code.c:144-158 | When the receive phase wakes the foreground, both interrupt sources are off; while it still sleeps, it has consumed every event. |
| RepeatedStartMaster.TransferCompletion | examples/i2c_master_rw_repeated_start-master_code/i2c_master_rw_repeated_start-master_code.c:111-127 | An iteration completes exactly when a stop is latched after nine received bytes. A completed one ends at the first such event, which is its last consumed event, and leaves both interrupt sources off. The next iteration starts with the following event. An unfinished one consumes all events. |
| RepeatedStartMaster.TransferRequests | examples/i2c_master_rw_repeated_start-master_code/i2c_master_rw_repeated_start-master_code.c:119-123 | A completed iteration requests exactly: write 0x04 with START, repeated START as receiver, eight reads, STOP, the ninth read. |
| RepeatedStartMaster.TransferStores | examples/i2c_master_rw_repeated_start-master_code/i2c_master_rw_repeated_start-master_code.c:122 | Because `xferIndex` is reset to 0, a completed iteration holds the first nine received bytes in `RXData[0..8]`, in order, with the index at 9. No iteration writes `RXData[9]`. |
| RepeatedStartMaster.SessionKeepsLastEntry | examples/i2c_master_rw_repeated_start-master_code/i2c_master_rw_repeated_start-master_code.c:72-76 | Over any number of iterations, `RXData[9]` keeps its value. |
| RepeatedStartMaster.SessionRequests | examples/i2c_master_rw_repeated_start-master_code/i2c_master_rw_repeated_start-master_code.c:111-127 | At most `n` transfers complete. After `n` completed transfers the requests are `n` copies of one transfer's, back to back, and both interrupt sources are off. |
| RepeatedStartMaster.LastEntryStaysZero | examples/i2c_master_rw_repeated_start-master_code/i2c_master_rw_repeated_start-master_code.c:99 | From the zero-filled buffer, `RXData[9]` stays 0 however many transfers run. |
| RepeatedStartMaster.Controller.constructor | examples/i2c_master_rw_repeated_start-master_code/i2c_master_rw_repeated_start-master_code.c:99 | `RXData` is a fresh 10-entry buffer of zeros, the index is 0 and no interrupt bit is set. |
| RepeatedStartMaster.Controller.StartTransfer | examples/i2c_master_rw_repeated_start-master_code/i2c_master_rw_repeated_start-master_code.c:116-124 | Setting sleep-on-exit, writing `TXData[0]`, resetting the index, starting the read and enabling the receive interrupt leaves the statics and the trace as `Begin` says. |
| RepeatedStartMaster.Controller.OnInterrupt | examples/i2c_master_rw_repeated_start-master_code/i2c_master_rw_repeated_start-master_code.c:134-160 | The in-place handler, writing into the `RXData` array, leaves the statics and the trace as `Interrupt` says. |
| RepeatedStartMaster.Controller.AwaitStop | examples/i2c_master_rw_repeated_start-master_code/i2c_master_rw_repeated_start-master_code.c:126 | The low-power sleep with sleep-on-exit leaves the statics, the trace and the number of events consumed as `Sleep` says. |
| RepeatedStartMaster.Controller.RunIteration | examples/i2c_master_rw_repeated_start-master_code/i2c_master_rw_repeated_start-master_code.c:116-126 | One loop iteration leaves the statics and the trace as `LoopBody` says. |
| SlaveReceiver.Initial | examples/i2c_master_w_multibyte-slave_code/i2c_master_w_multibyte-slave_code.c:63-69 | The initial statics, a zeroed 4-entry buffer and index 0, satisfy the ring invariant. |
| SlaveReceiver.Interrupt | examples/i2c_master_w_multibyte-slave_code/i2c_master_w_multibyte-slave_code.c:101-115 | Without the receive flag, nothing changes. A receive writes the byte at `xferIndex`, leaves the other three entries unchanged, and moves the index to `(xferIndex + 1) mod 4`, so the index stays in 0..3. |
| SlaveReceiver.Receive | examples/i2c_master_w_multibyte-slave_code/i2c_master_w_multibyte-slave_code.c:94-113 | While the foreground sleeps forever and the handler runs once per event, the buffer keeps its 4 entries and the index stays in 0..3 after any sequence of events. |
| SlaveReceiver.ReceiveWindow | examples/i2c_master_w_multibyte-slave_code/i2c_master_w_multibyte-slave_code.c:108-114 | After any events, the index has advanced by the number of bytes received, mod 4. Each of the last four bytes received sits at its arrival position mod 4, counted from the starting index. Entries no byte has reached keep their old value. |
| SlaveReceiver.WindowFromReset | examples/i2c_master_w_multibyte-slave_code/i2c_master_w_multibyte-slave_code.c:60-69 | From `main`'s initialisation, after k received bytes `xferIndex == k mod 4`. Entry j mod 4 holds the latest byte with arrival position j, and entries not reached are 0. |
| SlaveReceiver.FourBytesFillBuffer | examples/i2c_master_w_multibyte-slave_code/i2c_master_w_multibyte-slave_code.c:109-113 | Four more received bytes bring the index back where it was and overwrite all four entries, in arrival order from that index. |
| SlaveReceiver.Receiver.constructor | examples/i2c_master_w_multibyte-slave_code/i2c_master_w_multibyte-slave_code.c:63-69 | The in-place statics start as `Initial`. |
| SlaveReceiver.Receiver.OnInterrupt | examples/i2c_master_w_multibyte-slave_code/i2c_master_w_multibyte-slave_code.c:101-115 | The in-place handler, writing into the `RXData` array, leaves the statics as `Interrupt` says. |
| SlaveReceiver.Receiver.Serve | examples/i2c_master_w_multibyte-slave_code/i2c_master_w_multibyte-slave_code.c:94 | Sleeping forever and handling each event once leaves the statics as `Receive` says. |

## Left out

- DriverLib and hardware calls are not modelled as calls. This covers the watchdog, GPIO muxing, and module and clock configuration. The bus requests are recorded as `Action`s, and received bytes are event parameters.
- In the multi-slave master and the slave, the interrupt enable/clear calls and `getEnabledInterruptStatus` are not modelled: their enable masks never change after `main`'s set-up, so the status the handler sees is a parameter (`Status`, `Event`).
- The reader is different. It keeps its receive- and stop-interrupt enable bits as state (`receiveEnabled`, `stopEnabled`), set and cleared where the code enables and disables the interrupts. Its `Event` carries the latched flags, and the handler masks them with those bits itself, as `getEnabledInterruptStatus` does.
- I2C timing is not modelled: the electrical protocol, ACK/NACK generation, and why STOP must be requested one byte early. Only the order of requests is.
- The low-power sleep itself is not modelled: each handler run is one atomic step consuming one event from a finite sequence.
- In the multi-slave master and the slave, sleep-on-exit is not modelled as state. The multi-slave handler clears it in the same branch that raises `sendStopCondition`, so the model ends the wait on that flag. The slave sets it once and never wakes.
- The reader keeps sleep-on-exit as state (`sleepOnExit`). `Begin` sets it, the stop branch of the handler clears it, and `Sleep` ends exactly when it is clear.
- True concurrency between handler and foreground is not modelled. In particular, in the multi-slave master an interrupt can arrive between `MAP_I2C_masterSendMultiByteStart` and `TXByteCtr--`; the model runs the whole foreground step first.
- The masters' `while (1)` loops are modelled only for a finite number `n` of iterations (`MainLoop`). An iteration whose events run out while waiting counts as not completed.
- MultiSlaveMaster.Controller and RepeatedStartMaster.Controller have no method for `while (1)` itself. Only their loop bodies and waits are methods.
- The polling of `MAP_I2C_masterIsStopSent` before each transfer is treated as "the bus is idle", so it is not modelled.
- `stopSent` in the reader is written once and never read, so it is not modelled.
- Flags that are latched while their interrupt is disabled are not carried over to later events. Each event gives the flags latched at that wake-up.
- An unbounded run of NACKs is outside the model: every event sequence is finite.
- The SRAM/flash size example and the Keil blinky example are not part of this model: they contain no logic of their own beyond library calls and register writes.
- RepeatedStartMaster.TransferStores: a completed transfer is proved to store nine bytes, not the `NUM_OF_REC_BYTES` (10) the reader's description speaks of. This follows the code, which never writes `RXData[9]`.
