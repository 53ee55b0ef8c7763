# MemLcd over USB: a verified model

This project models the firmware of a USB device that drives a Sharp Memory LCD, and the two Linux
framebuffer drivers that feed such a display, and proves properties of the model with Dafny.
`dafny verify dfyconfig.toml` checks all of it.

What is modelled:

- the endpoint engine of the UDP driver (`BulkIn*`, `BulkOut*`): cutting buffers into packets and keeping
  one or two hardware banks ahead of the host, jobs chained from completion callbacks, reassembly of
  received packets, halting, aborting;
- the control endpoint (`Control*`): SETUP, DATA and status stages with several payload buffers;
- the job table with re-entrant callbacks (`Callbacks`);
- the pixel path (`PixelPath`, `PixelDriver`, `Lcd`, `BitTable`, `SpiDriver`): line packets from the host, the
  vendor callback, the frame buffer, bit-reversed SPI messages, and the display that reads them;
- fixed-point arithmetic (`FixedPoint`, `Interp`, `Circular`): saturation, the Park transforms, table
  interpolation, circular buffers;
- sleep locks (`Sleep*`), dispatch of pin interrupts (`Pio`), interrupt priorities (`Nvic`).

How it is built. State machines are functions on the state of one endpoint (`BulkIn.Interrupt`,
`Control.SetupReceived`, ...); the modules named `...Driver`, and the classes in `Pio` and `Nvic`, hold the
same code in its imperative form, as classes whose methods are proved equal to these functions; the modules
`...Banks`, `...Stream`, `...Jobs`, `...Runs` and `...Outcomes` prove what holds over runs. The hardware is a small machine: the packets
in its banks, TXCOMP, FORCESTALL, the interrupt enable bit, and logs of what the host sent and received. One
driver call or one pass of the interrupt routine is a step. A callback is modelled by the transfer it starts
(`BulkIn`, `BulkOut`) or by the list of calls it makes (`Callbacks`), and nothing is assumed about it.

Where the code does not do what its documentation says, the code is modelled and the exact condition proved:

- The bank counter of an IN endpoint loses its meaning if a halt is requested while the only packet of a
  longer job has completed but is not served yet (`BulkInBanks.HaltCycleExact`; `HaltSafe` is the condition).
- An endpoint reset does not reset `bank`, so two packets that arrive before the first service afterwards may
  be read in the wrong order (`BulkOutRuns.ResetThenTwo`, `BulkOutRuns.OrderLost`).
- The short-packet flag of the control endpoint outlives its request, so an empty first IN buffer may send no
  packet at all (`ControlRuns.EmptyFirstBuffer`, `ControlRuns.ShortThenEmpty`).
- Callbacks may be null, but clearing a halt and waiting for the end of one call them unchecked
  (`Callbacks.ClearHaltFaults`, `Callbacks.WaitStallFaults`, and the runs `Callbacks.FaultReachable` and
  `Callbacks.NullCallReachable`).
- Endpoint 0 passes the guards of the endpoint calls and reaches the memory before the job table
  (`Callbacks.InsideExactly`, `Callbacks.OutsideReachable`).
- Allocating an endpoint whose last completion was not served makes the bank counter wrap
  (`BulkInBanks.AllocExact`, `BulkInBanks.AllocWraps`, `BulkInBanks.AllocWrapReachable`).
- A halt of an OUT endpoint without a job loses the packet that waits there (`BulkOutRuns.HaltLosesPacket`).
- An OUT packet that overruns the last payload buffer of a control request is cut, and the request is
  acknowledged all the same (`ControlOutcomes.OverrunOutcome`).
- A control request without data whose direction bit is IN gets the wrong status stage
  (`ControlRuns.NoDataStatus`).
- The guard of the vendor callback admits line 242 of 0 to 241, and line numbers above leave the endpoint
  without a transfer for good (`PixelPath.OneLineTooMany`, `PixelPath.PastEndExactly`, `PixelPath.DeafForGood`).
- The interpolation functions never take their branch for a negative index (`Interp.NegativeInput`), and miss
  a positive entry by one unit at the entry itself (`Interp.AtAnEntry`).
- The PIO dispatch loop has no bound of its own (`Pio.DispatchExact`).
- Enabling the USB driver while the bus is active leaks a sleep lock (`Sleep.LocksBalancedExactly`,
  `Sleep.DepthByEvents`, `Sleep.AttachThenEnableLeaks`).
- The write offset of a circular buffer is a 16-bit number, so longer buffers are no queues
  (`Circular.OffsetExact`, `Circular.LongBufferLosesSample`), and the test for the end of a read's destination
  works only for whole steps (`Circular.EndTestExact`). Negative increments of the offset, which a comment
  announces, run off the front (`Circular.OffsetTestExact`).

## Model

| member | source | states |
|---|---|---|
| Usb.PacketsCarryData | fw_Atmel_XPro/MemLcdUsbSharp/src/ASF/sam/drivers/udp/udp_device.c:1365-1401 | cutting a buffer into packets loses and reorders no byte; all packets but the last are full; the last is short exactly when asked for or when the size does not divide the length, and empty exactly when asked for on a multiple (section 5.8.3 of the USB 2.0 specification) |
| Usb.HostReadsBack | fw_Atmel_XPro/MemLcdUsbSharp/src/ASF/sam/drivers/udp/udp_device.c:832-890 | a host that ends a transfer at each short packet reads a delimited buffer back as one transfer, whatever follows it |
| BulkInDriver.InEndpoint.CopyToFifo | fw_Atmel_XPro/MemLcdUsbSharp/src/ASF/sam/drivers/udp/udp_device.c:1382-1396 | the eight-byte loop and the rest loop append exactly the wanted slice of the buffer to the FIFO |
| BulkInDriver.InEndpoint.WriteFifo | fw_Atmel_XPro/MemLcdUsbSharp/src/ASF/sam/drivers/udp/udp_device.c:1365-1401 | the new state of endpoint, job and FIFO; true exactly for a short packet |
| BulkInDriver.InEndpoint.InSent | fw_Atmel_XPro/MemLcdUsbSharp/src/ASF/sam/drivers/udp/udp_device.c:1404-1437 | the new state; false exactly when nothing is left to load |
| BulkInDriver.InEndpoint.Load | fw_Atmel_XPro/MemLcdUsbSharp/src/ASF/sam/drivers/udp/udp_device.c:1419-1436 | the load itself: packet, validation, and the flags at the end of the buffer |
| BulkInDriver.InEndpoint.Run | fw_Atmel_XPro/MemLcdUsbSharp/src/ASF/sam/drivers/udp/udp_device.c:832-890 | a job is refused, with nothing changed, exactly when the endpoint is halting, halted or busy; otherwise the state after registration and first loads |
| BulkInDriver.InEndpoint.FinishJob | fw_Atmel_XPro/MemLcdUsbSharp/src/ASF/sam/drivers/udp/udp_device.c:1323-1338 | a job that is not busy is left alone; otherwise one completion is logged and the callback may start the next job |
| BulkInDriver.InEndpoint.FinishBuffer | fw_Atmel_XPro/MemLcdUsbSharp/src/ASF/sam/drivers/udp/udp_device.c:1520-1524 | the end of a buffer: the count is reported and the job finished |
| BulkInDriver.InEndpoint.TxInterrupt | fw_Atmel_XPro/MemLcdUsbSharp/src/ASF/sam/drivers/udp/udp_device.c:1500-1556 | the whole TXCOMP branch, with up to two callbacks in one pass |
| BulkInDriver.InEndpoint.ServeCompletion | fw_Atmel_XPro/MemLcdUsbSharp/src/ASF/sam/drivers/udp/udp_device.c:1519-1556 | the job is finished at the end of its buffer, then the banks are served |
| BulkInDriver.InEndpoint.DrainBank | fw_Atmel_XPro/MemLcdUsbSharp/src/ASF/sam/drivers/udp/udp_device.c:1504-1518 | TXCOMP during a deferred halt: send the rest, or stall |
| BulkInDriver.InEndpoint.ServeBanks | fw_Atmel_XPro/MemLcdUsbSharp/src/ASF/sam/drivers/udp/udp_device.c:1525-1555 | the four ways of refilling the banks |
| BulkInDriver.InEndpoint.TransmitAndLoad | fw_Atmel_XPro/MemLcdUsbSharp/src/ASF/sam/drivers/udp/udp_device.c:1535-1540 | one bank filled: it is transmitted, then the other is loaded |
| BulkInDriver.InEndpoint.LoadBoth | fw_Atmel_XPro/MemLcdUsbSharp/src/ASF/sam/drivers/udp/udp_device.c:1541-1549 | both banks free: one load is transmitted, then the other bank is loaded, possibly of a chained job |
| BulkInDriver.InEndpoint.SetHalt | fw_Atmel_XPro/MemLcdUsbSharp/src/ASF/sam/drivers/udp/udp_device.c:777-801 | deferred while a packet waits, immediate otherwise |
| BulkInDriver.InEndpoint.ClearHalt | fw_Atmel_XPro/MemLcdUsbSharp/src/ASF/sam/drivers/udp/udp_device.c:804-829 | the endpoint reset throws the banks away; a registered callback runs |
| BulkInDriver.InEndpoint.Abort | fw_Atmel_XPro/MemLcdUsbSharp/src/ASF/sam/drivers/udp/udp_device.c:893-926 | banks killed, counter cleared, interrupt off, and the job finished as aborted with its callback; `BulkInJobs.AbortEnds` says what that means |
| BulkInDriver.InEndpoint.Free | fw_Atmel_XPro/MemLcdUsbSharp/src/ASF/sam/drivers/udp/udp_device.c:754-762 | the endpoint is disabled and its job aborted, banks and statuses stay |
| BulkInDriver.InEndpoint.Alloc | fw_Atmel_XPro/MemLcdUsbSharp/src/ASF/sam/drivers/udp/udp_device.c:709-751 | refused exactly while enabled or for too large a size; otherwise size, flags and counter are set, the banks emptied, and TXCOMP left alone |
| BulkInDriver.InEndpoint.TableReset | fw_Atmel_XPro/MemLcdUsbSharp/src/ASF/sam/drivers/udp/udp_device.c:1290-1300 | the fields of this entry, the registers untouched |
| BulkInBanks.ValidateKeepsPackets | fw_Atmel_XPro/MemLcdUsbSharp/src/ASF/sam/drivers/udp/udp_device.c:1506-1508 | with one staged packet a validation sends exactly that packet: packets are never merged |
| BulkInBanks.StepBanks | fw_Atmel_XPro/MemLcdUsbSharp/src/ASF/sam/drivers/udp/udp_device.c:709-926 | run, halt, clear-halt, abort, free, alloc, bus reset, table reset, host reads and interrupt passes keep the bank counter exact (and positive exactly when TXPKTRDY or TXCOMP is set), in every state in which the call is safe; the three conditions on halt, alloc and table reset are exact, as the rows below state |
| BulkInBanks.BankRefinement | fw_Atmel_XPro/MemLcdUsbSharp/src/ASF/sam/drivers/udp/udp_device.c:1500-1556 | over every run of these with safe calls, and any callbacks, the counter of an enabled endpoint equals the unsent hardware banks plus one for a waiting TXCOMP and never exceeds the number of banks, and no completion is served at a counter of zero, so `bank--` never wraps |
| BulkInBanks.AllocExact | fw_Atmel_XPro/MemLcdUsbSharp/src/ASF/sam/drivers/udp/udp_device.c:726-745 | allocating a disabled endpoint keeps the counter exact if and only if no completion waits for service |
| BulkInBanks.AllocWraps | fw_Atmel_XPro/MemLcdUsbSharp/src/ASF/sam/drivers/udp/udp_device.c:735-745 | otherwise the next service wraps the counter to 3; a dual-bank endpoint sends an empty packet and a job run then loads nothing |
| BulkInBanks.AllocWrapReachable | fw_Atmel_XPro/MemLcdUsbSharp/src/ASF/sam/drivers/udp/udp_device.c:709-762 | freeing and allocating an endpoint before its completion is served gets there |
| BulkInBanks.TableResetExact | fw_Atmel_XPro/MemLcdUsbSharp/src/ASF/sam/drivers/udp/udp_device.c:1290-1300 | resetting the table keeps it exact if and only if the counter is zero already or the endpoint is disabled and empty |
| BulkInBanks.HaltCycleExact | fw_Atmel_XPro/MemLcdUsbSharp/src/ASF/sam/drivers/udp/udp_device.c:777-829 | halting, serving the waiting completion and clearing the halt keeps the counter exact if and only if the halt was safe: no unserved completion of the only packet of a job with more to load |
| BulkInBanks.UnsafeHaltReachable | fw_Atmel_XPro/MemLcdUsbSharp/src/ASF/sam/drivers/udp/udp_device.c:777-801 | a concrete run reaches a state where a halt is not safe |
| BulkInBanks.HaltNeedsEmptyBanks | fw_Atmel_XPro/MemLcdUsbSharp/src/ASF/sam/drivers/udp/udp_device.c:777-801 | a halt takes effect at once exactly when no packet waits in a bank; otherwise it is deferred |
| BulkInBanks.HaltStarts | fw_Atmel_XPro/MemLcdUsbSharp/src/ASF/sam/drivers/udp/udp_device.c:777-801 | a safe halt starts the draining below if a packet waits or nothing is in flight; otherwise it has stalled behind the completion of a job with nothing left to load |
| BulkInBanks.HaltDrainsThenStalls | fw_Atmel_XPro/MemLcdUsbSharp/src/ASF/sam/drivers/udp/udp_device.c:1502-1518 | once a halt is deferred, and until it is cleared, aborted or reset, no packet enters the FIFO, each served completion takes one from the counter, and FORCESTALL is set after the initial number of completions, when no unsent bank is left |
| BulkInStream.StepStream | fw_Atmel_XPro/MemLcdUsbSharp/src/ASF/sam/drivers/udp/udp_device.c:1404-1437 | each call and interrupt conserves packets: those written plus those still to write are those of the accepted transfers, in order |
| BulkInStream.InterruptAccepted | fw_Atmel_XPro/MemLcdUsbSharp/src/ASF/sam/drivers/udp/udp_device.c:1519-1547 | an interrupt pass drops and reorders no accepted transfer and adds exactly those its callbacks start |
| BulkInStream.ExecAccepted | fw_Atmel_XPro/MemLcdUsbSharp/src/ASF/sam/drivers/udp/udp_device.c:832-890 | over a run the accepted transfers grow by exactly those handed over, in order |
| BulkInStream.Packetisation | fw_Atmel_XPro/MemLcdUsbSharp/src/ASF/sam/drivers/udp/udp_device.c:861-887 | over every halt- and abort-free run, with chained jobs, the accepted transfers are those handed over by calls on the idle endpoint and by callbacks, in order; the host has received a prefix of their packets; every completion reported its whole buffer; with empty banks exactly the packets of the completed transfers were sent |
| BulkInStream.RoundProgress | fw_Atmel_XPro/MemLcdUsbSharp/src/ASF/sam/drivers/udp/udp_device.c:1519-1556 | one host read and one served completion take exactly one packet off what is outstanding and lose no transfer |
| BulkInStream.Settle | fw_Atmel_XPro/MemLcdUsbSharp/src/ASF/sam/drivers/udp/udp_device.c:1519-1556 | after as many rounds as packets are outstanding the endpoint is idle, all accepted transfers have completed and the host has exactly their packets |
| BulkInStream.HostSplitsStream | fw_Atmel_XPro/MemLcdUsbSharp/src/ASF/sam/drivers/udp/udp_device.c:861-887 | round trip: splitting the packet stream at short packets gives the buffers of the transfers back |
| BulkInJobs.RunTakes | fw_Atmel_XPro/MemLcdUsbSharp/src/ASF/sam/drivers/udp/udp_device.c:842-870 | an idle, enabled endpoint that is neither halted nor halting takes the transfer, and it runs with its interrupt on; any other endpoint refuses it and stays as it is |
| BulkInJobs.HaltRefuses | fw_Atmel_XPro/MemLcdUsbSharp/src/ASF/sam/drivers/udp/udp_device.c:777-801 | a halt stalls at once if no packet waits and at most one bank is in use, and is deferred otherwise; in both cases no transfer is taken afterwards and the completions in flight are served |
| BulkInJobs.AbortEnds | fw_Atmel_XPro/MemLcdUsbSharp/src/ASF/sam/drivers/udp/udp_device.c:893-926 | an abort logs exactly one completion of the running transfer, not OK, with its size; then the endpoint is idle with nothing in flight, or runs the transfer of the callback, which it does if and only if it is open; without a transfer nothing is logged |
| BulkInJobs.ReleaseEnds | fw_Atmel_XPro/MemLcdUsbSharp/src/ASF/sam/drivers/udp/udp_device.c:754-762 | freeing the endpoint and a bus reset log exactly one completion of the running transfer, not OK, and leave the endpoint idle and disabled, whatever its callback starts |
| BulkInJobs.UnhaltForgets | fw_Atmel_XPro/MemLcdUsbSharp/src/ASF/sam/drivers/udp/udp_device.c:804-829 | clearing a halt in effect empties the banks and ends the running transfer without a completion, its callback run instead; a deferred halt is only called off |
| BulkInJobs.TableResetForgets | fw_Atmel_XPro/MemLcdUsbSharp/src/ASF/sam/drivers/udp/udp_device.c:1290-1300 | no completion, no running transfer, flags and counter clear, registers untouched |
| BulkInJobs.AllocReady | fw_Atmel_XPro/MemLcdUsbSharp/src/ASF/sam/drivers/udp/udp_device.c:709-751 | refused exactly while enabled or for too large a size; otherwise a freed endpoint without a waiting completion or halt takes the next transfer and validates its first packet |
| BulkInJobs.ServiceKeepsBanksFull | fw_Atmel_XPro/MemLcdUsbSharp/src/ASF/sam/drivers/udp/udp_device.c:1519-1556 | after each served completion with no halt pending all banks are full or nothing is left to load, and the interrupt is on exactly while something is in flight |
| BulkInJobs.StartFillsBanks | fw_Atmel_XPro/MemLcdUsbSharp/src/ASF/sam/drivers/udp/udp_device.c:873-890 | a transfer started with nothing in flight fills the banks too |
| BulkInJobs.StepFate | fw_Atmel_XPro/MemLcdUsbSharp/src/ASF/sam/drivers/udp/udp_device.c:709-926 | one event completes, keeps or forgets each transfer, and adds exactly those handed over; only clearing a halt in effect and resetting the table forget one |
| BulkInJobs.EveryTransferEnds | fw_Atmel_XPro/MemLcdUsbSharp/src/ASF/sam/drivers/udp/udp_device.c:709-926 | over every run of all ten events, from any state: each accepted transfer was completed, once, is running, or was forgotten by clearing a halt or resetting the table |
| BulkInJobs.NothingForgotten | fw_Atmel_XPro/MemLcdUsbSharp/src/ASF/sam/drivers/udp/udp_device.c:709-926 | without these two events none is forgotten |
| BulkOutDriver.OutEndpoint.Run | fw_Atmel_XPro/MemLcdUsbSharp/src/ASF/sam/drivers/udp/udp_device.c:832-890 | acceptance, and the new job on the caller's buffer |
| BulkOutDriver.OutEndpoint.Register | fw_Atmel_XPro/MemLcdUsbSharp/src/ASF/sam/drivers/udp/udp_device.c:858-870 | the fields of the new job, and the interrupt enabled |
| BulkOutDriver.OutEndpoint.CopyBytes | fw_Atmel_XPro/MemLcdUsbSharp/src/ASF/sam/drivers/udp/udp_device.c:1462-1465 | the copy loop changes exactly the wanted bytes of the caller's buffer |
| BulkOutDriver.OutEndpoint.StoreBytes | fw_Atmel_XPro/MemLcdUsbSharp/src/ASF/sam/drivers/udp/udp_device.c:1453-1466 | the part that fits is stored; true exactly if it fills the buffer |
| BulkOutDriver.OutEndpoint.CopyFromFifo | fw_Atmel_XPro/MemLcdUsbSharp/src/ASF/sam/drivers/udp/udp_device.c:1440-1466 | the new state; the result says whether the packet ends the job |
| BulkOutDriver.OutEndpoint.AckOutReceived | fw_Atmel_XPro/MemLcdUsbSharp/src/ASF/sam/drivers/udp/udp_device.c:1341-1362 | which bank is cleared, and the next value of `bank` |
| BulkOutDriver.OutEndpoint.OutReceived | fw_Atmel_XPro/MemLcdUsbSharp/src/ASF/sam/drivers/udp/udp_device.c:1440-1476 | copy, acknowledge, and completion with the stored count |
| BulkOutDriver.OutEndpoint.RxInterrupt | fw_Atmel_XPro/MemLcdUsbSharp/src/ASF/sam/drivers/udp/udp_device.c:1494-1498 | the RXOUT branch |
| BulkOutDriver.OutEndpoint.ClearHalt | fw_Atmel_XPro/MemLcdUsbSharp/src/ASF/sam/drivers/udp/udp_device.c:804-829 | the endpoint reset empties the banks, `bank` keeps its value |
| BulkOutDriver.OutEndpoint.Abort | fw_Atmel_XPro/MemLcdUsbSharp/src/ASF/sam/drivers/udp/udp_device.c:893-926 | all received banks are acknowledged, the endpoint reset, the job finished as aborted |
| BulkOutDriver.OutEndpoint.Free | fw_Atmel_XPro/MemLcdUsbSharp/src/ASF/sam/drivers/udp/udp_device.c:754-762 | the endpoint is disabled and its job aborted |
| BulkOutDriver.OutEndpoint.Alloc | fw_Atmel_XPro/MemLcdUsbSharp/src/ASF/sam/drivers/udp/udp_device.c:709-751 | refused exactly while enabled or for too large a size; otherwise the banks are emptied and `bank` keeps its value |
| BulkOutRuns.AckExact | fw_Atmel_XPro/MemLcdUsbSharp/src/ASF/sam/drivers/udp/udp_device.c:1341-1362 | an acknowledge clears the oldest filled bank if and only if not both are full or `bank` names it |
| BulkOutRuns.PingPongOrder | fw_Atmel_XPro/MemLcdUsbSharp/src/ASF/sam/drivers/udp/udp_device.c:1341-1362 | from a synchronised state every acknowledge until an endpoint reset clears the oldest bank, so packets are read in arrival order, none lost and none twice |
| BulkOutRuns.ResetThenOne | fw_Atmel_XPro/MemLcdUsbSharp/src/ASF/sam/drivers/udp/udp_device.c:804-829 | after an endpoint reset a packet served alone is read in order and brings `bank` back into step, whatever it was |
| BulkOutRuns.ResetThenTwo | fw_Atmel_XPro/MemLcdUsbSharp/src/ASF/sam/drivers/udp/udp_device.c:804-829 | two packets before the first service after a reset are read in order if and only if `bank` was 0 (or the packets are equal) |
| BulkOutRuns.StaleBank | fw_Atmel_XPro/MemLcdUsbSharp/src/ASF/sam/drivers/udp/udp_device.c:893-926 | such a reset is reachable: a job that took one packet and was aborted leaves `bank` at 1 with empty banks |
| BulkOutRuns.OrderLost | fw_Atmel_XPro/MemLcdUsbSharp/src/ASF/sam/drivers/udp/udp_device.c:1341-1362 | from there any two different packets that arrive together are read out of order |
| BulkOutRuns.ReassemblyHolds | fw_Atmel_XPro/MemLcdUsbSharp/src/ASF/sam/drivers/udp/udp_device.c:1440-1476 | over every run, with halts, aborts, releases and resets anywhere, buffers hold the packets taken cut at the buffer size, bytes beyond are untouched, and the count never exceeds that size |
| BulkOutRuns.TerminalIsEnd | fw_Atmel_XPro/MemLcdUsbSharp/src/ASF/sam/drivers/udp/udp_device.c:1469-1475 | the routine finishes a job exactly at a short or buffer-filling packet |
| BulkOutRuns.JobsEndExactly | fw_Atmel_XPro/MemLcdUsbSharp/src/ASF/sam/drivers/udp/udp_device.c:1440-1476 | over every run, halts, aborts, releases and resets included, each job that completes regularly is completed by its first short or buffer-filling packet and by no other; a running job with no stall pending has only taken full packets that leave room |
| BulkOutRuns.ReceiveGives | fw_Atmel_XPro/MemLcdUsbSharp/src/ASF/sam/drivers/udp/udp_device.c:1440-1476 | a packet served goes to the running job, whether it completes it or not, and to nobody if none is running |
| BulkOutRuns.NothingBetweenJobs | fw_Atmel_XPro/MemLcdUsbSharp/src/ASF/sam/drivers/udp/udp_device.c:1440-1476 | over every run of packets, interrupts and jobs the interrupt is enabled exactly while a job runs, and the jobs' packets, put together, are the packets read |
| BulkOutRuns.HaltLosesPacket | fw_Atmel_XPro/MemLcdUsbSharp/src/ASF/sam/drivers/udp/udp_device.c:794-799 | a halt enables the interrupt without a job: a waiting packet is acknowledged and given to nobody |
| BulkOutJobs.RunTakes | fw_Atmel_XPro/MemLcdUsbSharp/src/ASF/sam/drivers/udp/udp_device.c:842-890 | an idle, enabled endpoint that is neither halted nor halting takes the job, with the packets that wait; any other refuses it and stays as it is |
| BulkOutJobs.AbortEnds | fw_Atmel_XPro/MemLcdUsbSharp/src/ASF/sam/drivers/udp/udp_device.c:893-926 | an abort logs exactly one completion of the running job, not OK, its buffer as it is, and drops the packets that wait; then the endpoint is idle or runs the job of the callback |
| BulkOutJobs.AbortLeavesBank | fw_Atmel_XPro/MemLcdUsbSharp/src/ASF/sam/drivers/udp/udp_device.c:911-925 | what an abort leaves in the software bank although the hardware restarts with bank 0: 1 after a single packet in bank 0 of a dual-bank endpoint, 0 after one in bank 1, and otherwise what it was |
| BulkOutJobs.ReleaseEnds | fw_Atmel_XPro/MemLcdUsbSharp/src/ASF/sam/drivers/udp/udp_device.c:754-762 | freeing the endpoint and a bus reset log exactly one completion, not OK, and leave the endpoint idle and disabled |
| BulkOutJobs.UnhaltForgets | fw_Atmel_XPro/MemLcdUsbSharp/src/ASF/sam/drivers/udp/udp_device.c:777-829 | a halt takes effect at once; clearing it empties the banks and ends the running job without a completion, its callback run instead |
| BulkOutJobs.TableResetForgets | fw_Atmel_XPro/MemLcdUsbSharp/src/ASF/sam/drivers/udp/udp_device.c:1290-1300 | no completion, no running job, flags and software bank clear, registers untouched |
| BulkOutJobs.AllocReady | fw_Atmel_XPro/MemLcdUsbSharp/src/ASF/sam/drivers/udp/udp_device.c:709-751 | refused exactly while enabled or for too large a size; otherwise the next job gets the next packet, and completes with it if it is short |
| BulkOutJobs.StepFate | fw_Atmel_XPro/MemLcdUsbSharp/src/ASF/sam/drivers/udp/udp_device.c:709-926 | one event completes, keeps or forgets each job, and adds exactly those handed over |
| BulkOutJobs.EveryJobEnds | fw_Atmel_XPro/MemLcdUsbSharp/src/ASF/sam/drivers/udp/udp_device.c:709-926 | over every run of all ten events, from any state: each accepted job was completed, once, is running, or was forgotten by clearing a halt or resetting the table |
| Callbacks.Finish | fw_Atmel_XPro/MemLcdUsbSharp/src/ASF/sam/drivers/udp/udp_device.c:1323-1338 | a completion keeps the books of the job table, whatever the callback calls |
| Callbacks.KillFrom | fw_Atmel_XPro/MemLcdUsbSharp/src/ASF/sam/drivers/udp/udp_device.c:1303-1311 | a bus reset finishes the jobs one by one, callbacks included: the books are kept, and every entry's running job goes on or has ended; `Callbacks.BusResetEnds` and `Callbacks.QuietBusReset` say that all of them end |
| Callbacks.TableReset | fw_Atmel_XPro/MemLcdUsbSharp/src/ASF/sam/drivers/udp/udp_device.c:1290-1300 | every running job, and no other, is counted as dropped; no callback runs; the books are kept |
| Callbacks.WaitStallClearOf | fw_Atmel_XPro/MemLcdUsbSharp/src/ASF/sam/drivers/udp/udp_device.c:929-960 | refused when disabled or busy, registered as a job while halted, with or without callback, and otherwise a callback that is given is called at once; the books are kept |
| Callbacks.Exec | fw_Atmel_XPro/MemLcdUsbSharp/src/ASF/sam/drivers/udp/udp_device.c:804-960 | over every interleaving of run, wait-stall-clear, abort, free, halt, clear-halt, bus reset and interrupt passes, on any endpoint number, with callbacks given or null, and with re-entrant callbacks: accepted jobs = callbacks + silent completions + drops + faults + the running job; callbacks run in order of acceptance, none twice |
| Callbacks.CallCompletes | fw_Atmel_XPro/MemLcdUsbSharp/src/ASF/sam/drivers/udp/udp_device.c:1314-1338 | an abort, a release or a completion ends the running job whatever its callback calls: the next callback that ran on the endpoint was that of this job, or it was counted as completed without one |
| Callbacks.BusResetEnds | fw_Atmel_XPro/MemLcdUsbSharp/src/ASF/sam/drivers/udp/udp_device.c:1303-1311 | a bus reset ends every running job whatever the callbacks call; if none resets the table no job is dropped, and the callback of each job that has one ran for it |
| Callbacks.QuietBusReset | fw_Atmel_XPro/MemLcdUsbSharp/src/ASF/sam/drivers/udp/udp_device.c:1303-1311 | with callbacks that make no call: no endpoint is busy afterwards, the books of each grew by exactly its one job, and the disabled ones have no halt |
| Callbacks.QuietCall | fw_Atmel_XPro/MemLcdUsbSharp/src/ASF/sam/drivers/udp/udp_device.c:754-762 | with callbacks that make no call an abort, a release or a completion leaves the endpoint idle, its books grown by exactly its one job, and every other entry as it was; a release also disables it |
| Callbacks.CallbackIsNext | fw_Atmel_XPro/MemLcdUsbSharp/src/ASF/sam/drivers/udp/udp_device.c:1323-1338 | the calls a callback makes work as if made right after the call that runs it, when its own job is over |
| Callbacks.RunTakes | fw_Atmel_XPro/MemLcdUsbSharp/src/ASF/sam/drivers/udp/udp_device.c:842-870 | a job is taken exactly by an enabled endpoint that is not busy, halted or halting, and gets the next number |
| Callbacks.RunThenEnd | fw_Atmel_XPro/MemLcdUsbSharp/src/ASF/sam/drivers/udp/udp_device.c:832-926 | a job that is run and then ended has its callback called once, with its number |
| Callbacks.HaltCycle | fw_Atmel_XPro/MemLcdUsbSharp/src/ASF/sam/drivers/udp/udp_device.c:777-829 | a halt refuses jobs from the call on, a deferred one takes effect in the interrupt routine, and clearing it makes the endpoint ready again |
| Callbacks.AllocReady | fw_Atmel_XPro/MemLcdUsbSharp/src/ASF/sam/drivers/udp/udp_device.c:709-751 | allocating an endpoint that is free and not halted makes it ready; an enabled one is refused |
| Callbacks.ClearHaltFaults | fw_Atmel_XPro/MemLcdUsbSharp/src/ASF/sam/drivers/udp/udp_device.c:819-827 | whatever callbacks do later, clearing a halt calls the null pointer if and only if the endpoint stalls with a job without callback, and a callback if and only if it stalls with a job that has one |
| Callbacks.WaitStallFaults | fw_Atmel_XPro/MemLcdUsbSharp/src/ASF/sam/drivers/udp/udp_device.c:941-958 | waiting for the end of a halt with no callback given calls the null pointer at once if and only if the endpoint is enabled, idle and neither halted nor halting; with a callback given it never does |
| Callbacks.NoFaults | fw_Atmel_XPro/MemLcdUsbSharp/src/ASF/sam/drivers/udp/udp_device.c:804-960 | if no callback is left out, neither of a job nor of a wait for the end of a halt, in the run and in its callbacks, no null pointer is ever called |
| Callbacks.FaultReachable | fw_Atmel_XPro/MemLcdUsbSharp/src/ASF/sam/drivers/udp/udp_device.c:819-827 | a run of four calls from the empty table calls the null pointer |
| Callbacks.NullCallReachable | fw_Atmel_XPro/MemLcdUsbSharp/src/ASF/sam/drivers/udp/udp_device.c:954-957 | two calls from the empty table call the null pointer without any job |
| Callbacks.InsideExactly | fw_Atmel_XPro/MemLcdUsbSharp/src/ASF/sam/drivers/udp/udp_device.c:808-811 | of the addresses the guards admit exactly those of endpoint 0 reach outside the table |
| Callbacks.NothingOutside | fw_Atmel_XPro/MemLcdUsbSharp/src/ASF/sam/drivers/udp/udp_device.c:804-960 | if no call names endpoint 0, in the run and in its callbacks, the memory before the table stays as it is |
| Callbacks.OutsideReachable | fw_Atmel_XPro/MemLcdUsbSharp/src/ASF/sam/drivers/udp/udp_device.c:808-813 | clearing the halt of endpoint 0 writes there |
| ControlDriver.ControlEndpoint.SetupReceived | fw_Atmel_XPro/MemLcdUsbSharp/src/ASF/sam/drivers/udp/udp_device.c:992-1049 | the whole SETUP routine: closing the old request, stalls, and the stage that starts |
| ControlDriver.ControlEndpoint.FillFifo | fw_Atmel_XPro/MemLcdUsbSharp/src/ASF/sam/drivers/udp/udp_device.c:1120-1123 | the FIFO receives exactly the next slice of the payload |
| ControlDriver.ControlEndpoint.SendData | fw_Atmel_XPro/MemLcdUsbSharp/src/ASF/sam/drivers/udp/udp_device.c:1096-1132 | packet size, short flag, abort by an OUT packet, and the FIFO copy |
| ControlDriver.ControlEndpoint.BufferSent | fw_Atmel_XPro/MemLcdUsbSharp/src/ASF/sam/drivers/udp/udp_device.c:1066-1096 | what happens at the end of a payload buffer |
| ControlDriver.ControlEndpoint.InSent | fw_Atmel_XPro/MemLcdUsbSharp/src/ASF/sam/drivers/udp/udp_device.c:1052-1132 | the whole IN routine |
| ControlDriver.ControlEndpoint.StoreOut | fw_Atmel_XPro/MemLcdUsbSharp/src/ASF/sam/drivers/udp/udp_device.c:1158-1171 | the OUT packet is stored up to the payload size, in place |
| ControlDriver.ControlEndpoint.OutComplete | fw_Atmel_XPro/MemLcdUsbSharp/src/ASF/sam/drivers/udp/udp_device.c:1171-1192 | the end of the OUT data stage: acknowledged if there is no over/underrun callback or it accepts, stalled otherwise (`ControlOutcomes.OutcomeOfPacket`) |
| ControlDriver.ControlEndpoint.OutOverrun | fw_Atmel_XPro/MemLcdUsbSharp/src/ASF/sam/drivers/udp/udp_device.c:1194-1217 | a full payload buffer: stall, or the next buffer with the totals moved on |
| ControlDriver.ControlEndpoint.OutReceived | fw_Atmel_XPro/MemLcdUsbSharp/src/ASF/sam/drivers/udp/udp_device.c:1135-1218 | the whole OUT routine |
| ControlRuns.ProtocolStep | fw_Atmel_XPro/MemLcdUsbSharp/src/ASF/sam/drivers/udp/udp_device.c:983-1282 | in each step the end-of-request callback runs exactly if the event ends a request that registered one; the IN-ZLP status is entered only from an OUT data stage, the OUT-ZLP status only from an IN data stage, or by a SETUP of that kind (section 8.5.3 of the USB 2.0 specification) |
| ControlRuns.NoDataStatus | fw_Atmel_XPro/MemLcdUsbSharp/src/ASF/sam/drivers/udp/udp_device.c:1027-1043 | a request without a data stage gets its IN status stage if and only if its direction bit is OUT; with the bit IN and an empty payload the driver waits for an OUT-ZLP, having sent nothing |
| ControlRuns.CallbackAtMostOnce | fw_Atmel_XPro/MemLcdUsbSharp/src/ASF/sam/drivers/udp/udp_device.c:1246-1252 | over every possible run the callback runs at most once per SETUP, in order |
| ControlRuns.InStageStarts | fw_Atmel_XPro/MemLcdUsbSharp/src/ASF/sam/drivers/udp/udp_device.c:1027-1035 | a non-empty first buffer within wLength starts the stage with the first packet sent |
| ControlRuns.InStageStep | fw_Atmel_XPro/MemLcdUsbSharp/src/ASF/sam/drivers/udp/udp_device.c:1052-1132 | each completion enters the OUT-ZLP status exactly when wLength bytes or a short packet were sent, and then all buffers have been sent; otherwise the next packet goes out |
| ControlRuns.EmptyFirstBuffer | fw_Atmel_XPro/MemLcdUsbSharp/src/ASF/sam/drivers/udp/udp_device.c:1054-1096 | with an empty first buffer, whatever the over/underrun callback does, the packet that is due is sent if and only if the static short-packet flag of the previous request is clear |
| ControlRuns.ShortThenEmpty | fw_Atmel_XPro/MemLcdUsbSharp/src/ASF/sam/drivers/udp/udp_device.c:1054-1096 | such a flag is reachable: a one-byte answer followed by a request with an empty first buffer leaves the second without any packet |
| ControlRuns.InPacketBound | fw_Atmel_XPro/MemLcdUsbSharp/src/ASF/sam/drivers/udp/udp_device.c:1097-1132 | at most wLength / 64 + 1 packets |
| ControlRuns.InDataStage | fw_Atmel_XPro/MemLcdUsbSharp/src/ASF/sam/drivers/udp/udp_device.c:1052-1132 | the stage sends the concatenation of all payload buffers in 64-byte packets, is within that bound, and ends |
| ControlRuns.OutStageStarts | fw_Atmel_XPro/MemLcdUsbSharp/src/ASF/sam/drivers/udp/udp_device.c:1044-1048 | a known OUT request with data starts with all totals at zero |
| ControlRuns.OutStageStep | fw_Atmel_XPro/MemLcdUsbSharp/src/ASF/sam/drivers/udp/udp_device.c:1158-1217 | the two 16-bit totals add up to the bytes stored without wrapping; a packet after which the stage goes on was full, wholly stored, and took 64 from the bytes due |
| ControlRuns.OutDataStage | fw_Atmel_XPro/MemLcdUsbSharp/src/ASF/sam/drivers/udp/udp_device.c:1135-1218 | at most wLength / 64 packets, rounded up, whatever buffers are supplied meanwhile |
| ControlOutcomes.SetupStalls | fw_Atmel_XPro/MemLcdUsbSharp/src/ASF/sam/drivers/udp/udp_device.c:992-1049 | a SETUP packet releases a stall and asserts one if and only if it is cut or not understood |
| ControlOutcomes.ProtocolErrorStalls | fw_Atmel_XPro/MemLcdUsbSharp/src/ASF/sam/drivers/udp/udp_device.c:1140-1156 | an OUT packet that no stage expects stalls the endpoint without the callback; a stall lasts until the next SETUP packet |
| ControlOutcomes.AbortedByHost | fw_Atmel_XPro/MemLcdUsbSharp/src/ASF/sam/drivers/udp/udp_device.c:1111-1119 | if the host has already sent its OUT packet nothing more is sent and the driver waits for it |
| ControlOutcomes.CompletionContinues | fw_Atmel_XPro/MemLcdUsbSharp/src/ASF/sam/drivers/udp/udp_device.c:1096-1132 | in the middle of a buffer a completion sends the next part of it |
| ControlOutcomes.CompletionSupplies | fw_Atmel_XPro/MemLcdUsbSharp/src/ASF/sam/drivers/udp/udp_device.c:1084-1132 | at the end of a buffer with data due, the first part of the buffer that the callback supplies is sent, and the buffer joins those of the request; without one, a zero-length packet |
| ControlOutcomes.OutcomeOfPacket | fw_Atmel_XPro/MemLcdUsbSharp/src/ASF/sam/drivers/udp/udp_device.c:1158-1217 | which phase each OUT packet reaches: a final one is acknowledged if and only if there is no over/underrun callback or it accepts, and stalled otherwise; one that fills the buffer goes on if and only if the next buffer is supplied; any other goes on |
| ControlOutcomes.OverrunOutcome | fw_Atmel_XPro/MemLcdUsbSharp/src/ASF/sam/drivers/udp/udp_device.c:1158-1192 | a packet longer than the room left is cut and ends the stage: acknowledged, unless there is a callback and it objects |
| ControlOutcomes.OutStageFills | fw_Atmel_XPro/MemLcdUsbSharp/src/ASF/sam/drivers/udp/udp_device.c:1135-1218 | for a request that fits the buffer: whatever the host sends up to wLength, the buffer holds exactly these bytes, the rest of it untouched, and the request is acknowledged, unless there is a callback and it objects |
| ControlOutcomes.OutRequest | fw_Atmel_XPro/MemLcdUsbSharp/src/ASF/sam/drivers/udp/udp_device.c:992-1252 | a whole OUT request from SETUP to acknowledgement: the buffer holds the data, and the callback has run once, for this request |
| PixelDriver.HostUpdate | memlcd_usb.c:142-194 | stops at the first failure, having submitted exactly the packets of the lines before it |
| PixelDriver.FillPacket | memlcd_usb.c:163-164 | line number, then the 52 bytes of the host line |
| PixelDriver.VendorDevice.OutCallback | fw_Atmel_XPro/MemLcdUsbSharp/src/usbVendorDev.c:60-78 | the frame buffer, the memory behind it and the re-arm, for each status and line number |
| PixelDriver.VendorDevice.CopyLine | fw_Atmel_XPro/MemLcdUsbSharp/src/usbVendorDev.c:69-70 | exactly the 50 bytes at the address of the line change |
| PixelPath.EngineServes | fw_Atmel_XPro/MemLcdUsbSharp/src/ASF/sam/drivers/udp/udp_device.c:1440-1476 | on this endpoint every packet is a transfer of its own: one callback, buffer front overwritten, endpoint armed again exactly if the callback does so |
| PixelPath.DeviceTracks | fw_Atmel_XPro/MemLcdUsbSharp/src/usbVendorDev.c:60-78 | over every interleaving of packets, of any length and content, and interrupts: one callback and at most one line write per packet, in arrival order; armed exactly if the last callback re-armed |
| PixelPath.DeafForGood | fw_Atmel_XPro/MemLcdUsbSharp/src/usbVendorDev.c:67 | after a line number beyond 242 no later packet has any effect |
| PixelPath.OneLineTooMany | fw_Atmel_XPro/MemLcdUsbSharp/src/usbVendorDev.c:67-70 | of the lines the guard admits exactly line 242 makes the copy reach beyond the frame buffer |
| PixelPath.CopyReads | fw_Atmel_XPro/MemLcdUsbSharp/src/usbVendorDev.c:69-70 | the copy changes its own line and no other; a line outside the buffer changes none |
| PixelPath.PastEndExactly | fw_Atmel_XPro/MemLcdUsbSharp/src/usbVendorDev.c:67-70 | a copy has gone beyond the frame buffer if and only if some packet names line 242; the callback re-arms exactly up to that line |
| PixelPath.LastWriterWins | fw_Atmel_XPro/MemLcdUsbSharp/src/usbVendorDev.c:69-70 | each line of the frame buffer holds what was sent for it last, or what it held before |
| PixelPath.FrameReceived | memlcd_usb.c:150-174 | after a whole host frame each line holds the visible 50 of the host's 52 bytes |
| PixelPath.EndToEnd | memlcd_usb.c:150-174 | once a whole host frame has arrived last and the banks are empty, the refresh shows every pixel (x < 400, y < 241) of the host's buffer |
| PixelPath.FeedDelivers | fw_Atmel_XPro/MemLcdUsbSharp/src/ASF/sam/drivers/udp/udp_device.c:1440-1476 | sending and serving packets in turn delivers them all, so such runs exist |
| Lcd.MirroredBit | fw_Atmel_XPro/MemLcdUsbSharp/src/MemLcd.c:11-29 | bit k of a byte is bit 7 - k of the mirrored one |
| BitTable.TableMirrors | fw_Atmel_XPro/MemLcdUsbSharp/src/MemLcd.c:11-29 | each of the 256 table entries is its index with the bits reversed (both copies of the table are the same) |
| BitTable.Reverse | fw_Atmel_XPro/MemLcdUsbSharp/src/MemLcd.c:47-50 | a look-up gives the mirrored byte |
| Lcd.LineMessageShows | fw_Atmel_XPro/MemLcdUsbSharp/src/MemLcd.c:34-58 | the message of one line shows that line and leaves all others |
| Lcd.ScreenShows | fw_Atmel_XPro/MemLcdUsbSharp/src/MemLcd.c:60-66 | the messages of a refresh show every line of the frame buffer |
| Lcd.HostTransferRoundTrip | memlcd_spi.c:122-141 | decoding the host's single transfer from the wire gives all 241 x 400 pixels |
| Lcd.SamePicture | fw_Atmel_XPro/MemLcdUsbSharp/src/MemLcd.c:34-66 | for the same lines the firmware's messages and the host's transfer show the same pixels |
| SpiDriver.Spi.Write | fw_Atmel_XPro/MemLcdUsbSharp/src/ASF/sam/drivers/spi/spi.c:179-203 | succeeds exactly if TDRE is read as set within 15001 polls, stops at the first such poll, writes TDR once on success and not at all on a timeout |
| SpiDriver.Spi.WaitEmpty | fw_Atmel_XPro/MemLcdUsbSharp/src/MemLcd.c:54-55 | under any fair TXEMPTY schedule the wait ends at the first poll that reads it as set; then all bytes written have been shifted out |
| SpiDriver.MemLcd.Send | fw_Atmel_XPro/MemLcdUsbSharp/src/MemLcd.c:47-53 | under any fair TDRE schedule, with timeouts and retries, the byte reaches TDR exactly once, while the display is selected, and the retries end |
| SpiDriver.MemLcd.SendMessage | fw_Atmel_XPro/MemLcdUsbSharp/src/MemLcd.c:47-53 | the selected display is given exactly the bytes of the line message |
| SpiDriver.MemLcd.WriteLine | fw_Atmel_XPro/MemLcdUsbSharp/src/MemLcd.c:34-58 | the display, which takes the bytes shifted out between a rise and the next fall of its select, takes exactly one frame, the line message; TDR receives exactly its bytes |
| SpiDriver.MemLcd.UpdateScreen | fw_Atmel_XPro/MemLcdUsbSharp/src/MemLcd.c:60-66 | the frames the display takes are the messages of all 242 lines in order, and TDR receives exactly their bytes |
| SpiDriver.FillData | memlcd_spi.c:137-138 | the data bytes of one record, nothing else changed |
| SpiDriver.FillRecord | memlcd_spi.c:133-139 | one record of the transfer buffer, nothing else changed |
| SpiDriver.HostUpdate | memlcd_spi.c:122-141 | the transfer buffer holds the whole encoded frame and two zero bytes |
| FixedPoint.ClipSaturates | fw_Atmel_XPro/MemLcdUsbSharp/src/ASF/thirdparty/CMSIS/Include/arm_math.h:383-388 | the comparison of the two words is true saturation for every 64-bit number |
| FixedPoint.QAdd | fw_Atmel_XPro/MemLcdUsbSharp/src/ASF/thirdparty/CMSIS/Include/arm_math.h:865-870 | the saturated sum |
| FixedPoint.QSub | fw_Atmel_XPro/MemLcdUsbSharp/src/ASF/thirdparty/CMSIS/Include/arm_math.h:875-880 | the saturated difference |
| FixedPoint.RotationBound | fw_Atmel_XPro/MemLcdUsbSharp/src/ASF/thirdparty/CMSIS/Include/arm_math.h:5163-5192 | a rotated vector is not longer than the given one (through Lagrange's identity) |
| FixedPoint.ParkId | fw_Atmel_XPro/MemLcdUsbSharp/src/ASF/thirdparty/CMSIS/Include/arm_math.h:5163-5188 | Id is the exact rotation less at most two units; nothing saturates |
| FixedPoint.ParkIq | fw_Atmel_XPro/MemLcdUsbSharp/src/ASF/thirdparty/CMSIS/Include/arm_math.h:5163-5191 | Iq is the exact rotation to within one unit; nothing saturates |
| FixedPoint.ParkRoundTrip | fw_Atmel_XPro/MemLcdUsbSharp/src/ASF/thirdparty/CMSIS/Include/arm_math.h:5283-5313 | Park then inverse Park give a(c²+s²) and b(c²+s²), in units of 2⁻⁶², to within 4 and 5 units of the result, and none of the four saturating operations saturates, for a²+b² ≤ (2³¹−5)² and c²+s² ≤ 2⁶² |
| Interp.InterpQ31Bounds | fw_Atmel_XPro/MemLcdUsbSharp/src/ASF/thirdparty/CMSIS/Include/arm_math.h:5440-5483 | no intermediate overflow; below the weighted sum of the neighbours by less than four units; within (min−5, max+1] |
| Interp.InterpQ15Bounds | fw_Atmel_XPro/MemLcdUsbSharp/src/ASF/thirdparty/CMSIS/Include/arm_math.h:5500-5541 | within [min−1, max] of the neighbours, monotone in the fraction, in the direction of the neighbours |
| Interp.InterpQ7IsBlend | fw_Atmel_XPro/MemLcdUsbSharp/src/ASF/thirdparty/CMSIS/Include/arm_math.h:5557-5600 | the 32-bit sums do not overflow |
| Interp.InterpQ7Bounds | fw_Atmel_XPro/MemLcdUsbSharp/src/ASF/thirdparty/CMSIS/Include/arm_math.h:5557-5600 | as for Q15 |
| Interp.NearTheLine | fw_Atmel_XPro/MemLcdUsbSharp/src/ASF/thirdparty/CMSIS/Include/arm_math.h:5500-5541 | the Q15 result is within about one unit of the line through the neighbours |
| Interp.NegativeInput | fw_Atmel_XPro/MemLcdUsbSharp/src/ASF/thirdparty/CMSIS/Include/arm_math.h:5451-5460 | a negative input selects an entry of the upper half: the branch for a negative index is never taken, and a table of at most 2049 entries answers with its last entry |
| Interp.InputSplits | fw_Atmel_XPro/MemLcdUsbSharp/src/ASF/thirdparty/CMSIS/Include/arm_math.h:5447-5462 | index and fraction are those of the input, a negative one taken as unsigned |
| Interp.BeyondTheTable | fw_Atmel_XPro/MemLcdUsbSharp/src/ASF/thirdparty/CMSIS/Include/arm_math.h:5453-5456 | from the last entry on all three functions answer with the last entry |
| Interp.AtAnEntry | fw_Atmel_XPro/MemLcdUsbSharp/src/ASF/thirdparty/CMSIS/Include/arm_math.h:5500-5541 | at an entry the Q15 and Q7 functions answer with the entry, less one unit if it is positive |
| Interp.MonotoneInput | fw_Atmel_XPro/MemLcdUsbSharp/src/ASF/thirdparty/CMSIS/Include/arm_math.h:5500-5600 | over a non-decreasing table the Q15 and Q7 functions are non-decreasing in the input, across segments and past the end |
| Interp.OnTheLine | fw_Atmel_XPro/MemLcdUsbSharp/src/ASF/thirdparty/CMSIS/Include/arm_math.h:5500-5600 | between two entries the Q15 and Q7 answers are the line through them, in the input itself, within about one unit |
| Interp.OnTheLineQ31 | fw_Atmel_XPro/MemLcdUsbSharp/src/ASF/thirdparty/CMSIS/Include/arm_math.h:5440-5483 | the same for Q31, within five units |
| Circular.AdvanceIsModulo | fw_Atmel_XPro/MemLcdUsbSharp/src/ASF/thirdparty/CMSIS/Include/arm_math.h:5886-5888 | the conditional subtraction is arithmetic modulo the length |
| Circular.OffsetTestExact | fw_Atmel_XPro/MemLcdUsbSharp/src/ASF/thirdparty/CMSIS/Include/arm_math.h:5885-5888 | every block stays inside the buffer if and only if the increment is between 0 and the length; the comment in the code also announces negative ones |
| Circular.CircularWrite | fw_Atmel_XPro/MemLcdUsbSharp/src/ASF/thirdparty/CMSIS/Include/arm_math.h:5858-5896 | for any signed increments that stay inside buffer and source: the buffer and the final offset, kept in 16 bits |
| Circular.CircularRead | fw_Atmel_XPro/MemLcdUsbSharp/src/ASF/thirdparty/CMSIS/Include/arm_math.h:5903-5953 | for any signed increments that stay inside buffer and destination: the destination and the final offset |
| Circular.EndTestExact | fw_Atmel_XPro/MemLcdUsbSharp/src/ASF/thirdparty/CMSIS/Include/arm_math.h:5932-5938 | the comparison with the end keeps every block inside the destination if and only if the first position and the length are whole numbers of steps |
| Circular.EndTestFails | fw_Atmel_XPro/MemLcdUsbSharp/src/ASF/thirdparty/CMSIS/Include/arm_math.h:5932-5938 | three elements two at a time: the third sample goes past the end |
| Circular.StoredAt | fw_Atmel_XPro/MemLcdUsbSharp/src/ASF/thirdparty/CMSIS/Include/arm_math.h:5922-5931 | a destination slot holds the last sample that went there |
| Circular.StoredElsewhere | fw_Atmel_XPro/MemLcdUsbSharp/src/ASF/thirdparty/CMSIS/Include/arm_math.h:5922-5931 | destination slots where no sample went are as they were |
| Circular.WrittenAt | fw_Atmel_XPro/MemLcdUsbSharp/src/ASF/thirdparty/CMSIS/Include/arm_math.h:5875-5889 | a slot of the circular buffer holds the last sample that went there |
| Circular.BlockTaken | fw_Atmel_XPro/MemLcdUsbSharp/src/ASF/thirdparty/CMSIS/Include/arm_math.h:5858-5896 | the samples a write takes in steps of one are the first ones of the source in order, and backwards from its end the last ones in reverse |
| Circular.BlockStored | fw_Atmel_XPro/MemLcdUsbSharp/src/ASF/thirdparty/CMSIS/Include/arm_math.h:5903-5953 | a block read in steps of one to the start of the destination is what it holds, the rest untouched |
| Circular.BlockRoundTrip | fw_Atmel_XPro/MemLcdUsbSharp/src/ASF/thirdparty/CMSIS/Include/arm_math.h:5858-5953 | whatever the increment, a block written within one round of the buffer is read back |
| Circular.WriteAppends | fw_Atmel_XPro/MemLcdUsbSharp/src/ASF/thirdparty/CMSIS/Include/arm_math.h:5858-5896 | with increment 1 a write appends to the queue and changes no other slot |
| Circular.ReadRemoves | fw_Atmel_XPro/MemLcdUsbSharp/src/ASF/thirdparty/CMSIS/Include/arm_math.h:5903-5953 | with increment 1 a read returns the front of the queue and removes it |
| Circular.QueueLaw | fw_Atmel_XPro/MemLcdUsbSharp/src/ASF/thirdparty/CMSIS/Include/arm_math.h:5858-5953 | for at most 65536 elements, over any alternation of writes and reads that keeps the occupancy within the length, what was read and what is held is what was written |
| Circular.OffsetExact | fw_Atmel_XPro/MemLcdUsbSharp/src/ASF/thirdparty/CMSIS/Include/arm_math.h:5858-5896 | the 16-bit write offset is the offset reached, from every offset, if and only if there are at most 65536 elements |
| Circular.LongBufferLosesSample | fw_Atmel_XPro/MemLcdUsbSharp/src/ASF/thirdparty/CMSIS/Include/arm_math.h:5858-5953 | every longer buffer fails as a queue: of two samples written from offset 65535 on in two blocks the second does not come back |
| Sleep.FirstLocked | fw_Atmel_XPro/MemLcdUsbSharp/src/ASF/common/services/sleepmgr/sleepmgr.h:185-205 | the result is the first locked mode, or the array length |
| SleepDriver.SleepManager.Initialise | fw_Atmel_XPro/MemLcdUsbSharp/src/ASF/common/services/sleepmgr/sleepmgr.h:112-122 | all counts zero, the last one 1 |
| SleepDriver.SleepManager.GetSleepMode | fw_Atmel_XPro/MemLcdUsbSharp/src/ASF/common/services/sleepmgr/sleepmgr.h:185-205 | the pointer loop ends inside the array at the shallowest locked mode |
| SleepDriver.SleepManager.LockMode | fw_Atmel_XPro/MemLcdUsbSharp/src/ASF/common/services/sleepmgr/sleepmgr.h:132-149 | one count goes up by one |
| SleepDriver.SleepManager.UnlockMode | fw_Atmel_XPro/MemLcdUsbSharp/src/ASF/common/services/sleepmgr/sleepmgr.h:159-176 | one count goes down by one |
| SleepDriver.UsbPower.SetIdle | fw_Atmel_XPro/MemLcdUsbSharp/src/ASF/sam/drivers/udp/udp_device.c:151-160 | a lock is taken or given back only when the idle flag changes |
| SleepDriver.UsbPower.EnableUsb | fw_Atmel_XPro/MemLcdUsbSharp/src/ASF/sam/drivers/udp/udp_device.c:544-588 | the idle flag cleared, a WAIT lock, and a WFI lock if it attaches |
| SleepDriver.UsbPower.DisableUsb | fw_Atmel_XPro/MemLcdUsbSharp/src/ASF/sam/drivers/udp/udp_device.c:591-610 | detach, then give the WAIT lock back |
| SleepDriver.UsbPower.SendRemoteWakeup | fw_Atmel_XPro/MemLcdUsbSharp/src/ASF/sam/drivers/udp/udp_device.c:688-698 | idle again, unless it was |
| Sleep.LocksBalancedExactly | fw_Atmel_XPro/MemLcdUsbSharp/src/ASF/sam/drivers/udp/udp_device.c:544-698 | over every run in which enable and disable alternate, bus events and other clients at any time, the driver holds one WFI lock exactly while idle and one WAIT lock exactly while enabled, and no assertion on a count has failed, if and only if each enable found the idle flag clear |
| Sleep.EnableExact | fw_Atmel_XPro/MemLcdUsbSharp/src/ASF/sam/drivers/udp/udp_device.c:565-569 | enabling keeps the balance if and only if the idle flag is not set |
| Sleep.AttachThenEnableLeaks | fw_Atmel_XPro/MemLcdUsbSharp/src/ASF/sam/drivers/udp/udp_device.c:565-620 | attaching before enabling leaks a lock: afterwards a suspended bus still keeps the device out of WAIT mode |
| Sleep.LockLimits | fw_Atmel_XPro/MemLcdUsbSharp/src/ASF/common/services/sleepmgr/sleepmgr.h:132-176 | taking a lock fails exactly at 255 and giving one back exactly at zero; a lock taken and given back leaves the counts as they were |
| Sleep.CountsNeverWrap | fw_Atmel_XPro/MemLcdUsbSharp/src/ASF/common/services/sleepmgr/sleepmgr.h:132-176 | over every run, permitted or not, the counts fit their eight bits |
| Sleep.DeepestAllowed | fw_Atmel_XPro/MemLcdUsbSharp/src/ASF/common/services/sleepmgr/sleepmgr.h:185-205 | the mode found is the shallowest one held; the idle flag allows nothing below WFI, an enabled driver nothing below WAIT, and without other clients exactly these depths are reached |
| Sleep.FlagsFollowBus | fw_Atmel_XPro/MemLcdUsbSharp/src/ASF/sam/drivers/udp/udp_device.c:479-498 | over every run the idle flag is set if and only if the last event that concerns the bus makes it active (attach, resume, wake-up, attaching enable), and the driver is enabled if and only if the last such call was enable |
| Sleep.DepthByEvents | fw_Atmel_XPro/MemLcdUsbSharp/src/ASF/common/services/sleepmgr/sleepmgr.h:185-205 | in terms of events only, over every run from start-up: the locks are balanced if and only if each enable happened while the bus was not active; then the mode found is WFI on an active bus, else WAIT while enabled, else BACKUP, unless a client holds a shallower one |
| Sleep.ActiveBusKeepsAwake | fw_Atmel_XPro/MemLcdUsbSharp/src/ASF/sam/drivers/udp/udp_device.c:479-498 | from start-up on, in whatever order events come, with leaks or without, an active bus allows nothing below WFI |
| PioHandler.Handlers.Set | fw_Atmel_XPro/MemLcdUsbSharp/src/ASF/sam/drivers/pio/pio_handler.c:137-157 | appends a source, or answers 1 on a full table and changes nothing |
| PioHandler.Handlers.Process | fw_Atmel_XPro/MemLcdUsbSharp/src/ASF/sam/drivers/pio/pio_handler.c:87-112 | for covered pins the loop ends within the registered entries, having called exactly the claiming ones in order |
| Pio.ClaimExact | fw_Atmel_XPro/MemLcdUsbSharp/src/ASF/sam/drivers/pio/pio_handler.c:100-111 | an entry is called for the pending pins of its mask that no earlier entry of the controller covers; entries of other controllers for none |
| Pio.ClaimedByOne | fw_Atmel_XPro/MemLcdUsbSharp/src/ASF/sam/drivers/pio/pio_handler.c:100-111 | each covered pending pin is claimed by exactly one entry, the earliest |
| Pio.CallsExact | fw_Atmel_XPro/MemLcdUsbSharp/src/ASF/sam/drivers/pio/pio_handler.c:100-111 | handlers run once each, in registration order, exactly for entries with a claim |
| Pio.DispatchExact | fw_Atmel_XPro/MemLcdUsbSharp/src/ASF/sam/drivers/pio/pio_handler.c:97-112 | the unbounded loop ends inside the table if and only if the registered sources cover every pending pin |
| Nvic.PriorityRoundTrip | fw_Atmel_XPro/MemLcdUsbSharp/src/ASF/thirdparty/CMSIS/Include/core_cm4.h:1467-1548 | encode, set, get and decode give the pair back, cut to the bits of its group, for every group |
| Nvic.RegisterOrder | fw_Atmel_XPro/MemLcdUsbSharp/src/ASF/thirdparty/CMSIS/Include/core_cm4.h:1509-1522 | priority registers are ordered as the pairs, preemption first |
| NvicRegisters.Registers.SetPriority | fw_Atmel_XPro/MemLcdUsbSharp/src/ASF/thirdparty/CMSIS/Include/core_cm4.h:1467-1473 | one register changes; only the four bits that exist are used |
| NvicRegisters.Registers.GetPriority | fw_Atmel_XPro/MemLcdUsbSharp/src/ASF/thirdparty/CMSIS/Include/core_cm4.h:1487-1494 | the four-bit priority that setting would leave this register |
| NvicRegisters.OnePriority | fw_Atmel_XPro/MemLcdUsbSharp/src/ASF/thirdparty/CMSIS/Include/core_cm4.h:1467-1494 | a four-bit priority with the register of another is that one, cut to four bits: what is read back is what was set |

## Left out

- BulkInDriver.InEndpoint.TxInterrupt: does not model that the caller may change a buffer while it is being sent; the buffer of an IN job is a value.
- BulkOutDriver.OutEndpoint.RxInterrupt: a callback that starts a job hands over a buffer with its contents at that moment; aliasing of that buffer with other memory is not modelled.
- Callbacks.Exec: the job table is modelled on values, not as an object, because callbacks re-enter the driver at any point; which data moves is the subject of the other modules, and only the number of callback invocations is claimed, not their arguments. What lies before the table is read as a job, and a callback found there is as arbitrary as any other.
- Sleep.LocksBalancedExactly: enable and disable alternate.
- Pio.DispatchExact: 32-bit masks are sets of pins; handlers do not register further handlers, and reading past the table is modelled as not ending.
- ControlRuns.InDataStage: the host does not end the stage early and the payload is within wLength; `ControlRuns.ProtocolStep` covers early ends.
- Interrupt passes are atomic: hardware events between two register accesses of one pass are not modelled; busy-waits on hardware bits are taken to end.
- BulkInStream.Packetisation: runs without halt, abort, release and reset; the other modules say what these do.
- The isochronous type; the effect of a bus reset on the registers is that it clears them and disables the endpoint.
- VBUS monitoring, which this board does not configure.
- `udc_process_setup`, `udc_reset` and the class code: arbitrary results within the sizes of their types.
- `clip_q31_to_q7`, `clip_q63_to_q15` and `clip_q31_to_q15`: the first two are not saturations; none is used by the functions modelled.
- Bilinear interpolation, floating point, filters and transforms of `arm_math.h`.
- SpiDriver.MemLcd.WriteLine: a byte is shifted out at some time between its write and the next TXEMPTY; clocks, delays and pin multiplexing are not modelled.
- URB allocation, anchoring and release, deferred work and probing in the host drivers; the kernel's `spi_write` takes the whole transfer buffer.
- Priorities of core interrupts (negative numbers) in `core_cm4.h`.
- Sleep entry itself, and the capture handler of the PIO.
