# USB BAM pipe manager, SSP sensor-hub transport and BMG160 gyro, in Dafny

This project models three parts of an MSM8974 Android kernel and proves
properties of the model.

- **USB BAM pipe manager** (`drivers/platform/msm/usb_bam.c`). The model
  keeps the fixed table of pipe connections and the per-BAM arrays
  (pipes-enabled counters, inactivity timers, inactivity flags, producer
  and consumer grant states). These live in `class BamManager`, which
  updates them in place.
  - Connect and disconnect bookkeeping, IPA connect and disconnect, the
    A2 reset, the wake and inactivity event filter, the resource
    callbacks and the low-power gate are methods of that class.
  - The backend half of a connect or disconnect (`connect_pipe`,
    `connect_pipe_ipa`, `disconnect_pipe`) is a pure plan. It lists the
    SPS, IPA, clock and memory calls it makes, given an oracle record of
    their answers.
  - The peer handshake state machine is a set of pure step functions
    (module `PeerHandshake`), wrapped by `class Handshake`.
- **SSP sensor-hub transport** (`drivers/sensorhub/stm/ssp_i2c.c`).
  - Pure parts: the reply-start scan, the receive-window arithmetic of
    the retrying read, the instruction frame, and the big-endian
    decoders.
  - `class SspHub` holds the failure counters (`uBusyCnt`,
    `uTimeOutCnt`, `uInstFailCnt`, `uSsdFailCnt`), the log of requests
    sent, the frames handed on, and the fuse ROM bytes.
  - SPI transfers and GPIO levels are inputs.
- **BMG160 gyroscope** (`drivers/sensors/bmg160.c`).
  - Pure parts: the power-mode decoder, the auto-sleep clamp, signed
    16-bit sample assembly and range scaling with C truncation, the
    dps mapping, the self-test verdict and the truncated calibration
    mean.
  - `class Gyro` holds `enable`, the polling state, the calibration
    offsets and the I2C failure counter.
  - The calibration loop accumulates sums over 20 samples.

Calls into hardware and other drivers become oracle parameters. These
cover SPS, IPA, SMSM, clocks, the RM grant waits, SPI, GPIO, I2C and the
calibration file. What a method asks of them is appended to a log field
`hw`, `requests` or `frames`. The register-field masks and enum codes of
kernel headers not included here (`ssp.h`, `bmg160_reg.h`) are fields of constant
records (`SspConsts`, `Bmg160.Consts`).

Files:
- `wrappers.dfy`: `Option`.
- `bytes.dfy`: the `byte` type (0 .. 255) the transport and the gyro
  combine arithmetically.
- `bam_types.dfy`: BAM ids, the connection record, the enabled-pipe
  count, `strnstr` and the core-name lookup.
- `pipe_backend.dfy`: the backend plans.
- `handshake.dfy`: the peer handshake.
- `usb_bam.dfy`: the manager.
- `ssp_transport.dfy`: the sensor-hub transport.
- `bmg160.dfy`: the gyro.

## Model

| member | source | states |
|---|---|---|
| BamTypes.CountEnabled | drivers/platform/msm/usb_bam.c:620-628 | the number of enabled connections of a BAM, which `pipes_enabled_per_bam` tracks, never exceeds the table size |
| BamTypes.CountEnabledUpdate | drivers/platform/msm/usb_bam.c:1168-1174 | overwriting one table entry changes a BAM's enabled count by exactly the old entry's and the new entry's contributions, so setting or clearing one `enabled` flag moves the counter by one |
| BamTypes.CountEnabledPositive | drivers/platform/msm/usb_bam.c:655-691 | a BAM's enabled count is positive iff some table entry of that BAM is enabled (the test the consumer callbacks make) |
| BamTypes.CountEnabledNone | drivers/platform/msm/usb_bam.c:1801-1821 | a table with no enabled entry, as at probe, has count 0 for every BAM |
| BamTypes.SearchFromSpec | drivers/platform/msm/usb_bam.c:150-166 | the bounded substring search from position k succeeds iff the pattern occurs at some j >= k that ends within the length limit |
| BamTypes.StrnStrSpec | drivers/platform/msm/usb_bam.c:150-166 | `strnstr(name, p, USB_BAM_MAX_STR_LEN)` is true iff `p` occurs within the first 50 characters of `name` |
| BamTypes.BamOfCoreName | drivers/platform/msm/usb_bam.c:150-166 | the lookup yields a valid BAM id or -EINVAL; it yields SSUSB iff "ssusb" or "dwc3" is found; -EINVAL rules out "hsic" and "ci" |
| BamTypes.BamOfCoreNameSpec | drivers/platform/msm/usb_bam.c:150-166 | all four outcomes as iffs over occurrence, in the source's order: ssusb/dwc3 gives SSUSB, else hsic gives HSIC, else hsusb/ci gives HSUSB, else -EINVAL |
| BamTypes.BamNameRoundTrip | drivers/platform/msm/usb_bam.c:99-103 | looking up each BAM's own enable string (`bam_enable_strings`) yields that BAM |
| PipeBackend.ConnectPipe | drivers/platform/msm/usb_bam.c:216-377 | no endpoint gives -ENOMEM and no call; success iff `sps_connect` was called and the endpoint was not freed; on success the USB pipe index is the source pipe for USB-to-peer and the destination pipe otherwise; every other failure ends by freeing the endpoint; RAM1 is written only for private memory, with 4 on HSUSB and 7 otherwise |
| PipeBackend.ConnectPipeAgrees | drivers/platform/msm/usb_bam.c:288-296 | outside the two faulty paths (private memory with a clock error, an unknown memory type) the as-written plan is identical to the corrected one |
| PipeBackend.ConnectPipeAsWrittenReportsRollbackAsSuccess | drivers/platform/msm/usb_bam.c:288-296 | as written, an unknown memory type and a failing `mem_iface_clk` alone each free the endpoint without connecting, yet return 0 |
| PipeBackend.DisconnectUndoesConnect | drivers/platform/msm/usb_bam.c:538-580 | every resource a successful connect acquired (endpoint, clocks, mapping, coherent memory while its physical base is kept) is released by the disconnect of the same connection |
| PipeBackend.DisconnectFreesCoherentOnlyWhenHeld | drivers/platform/msm/usb_bam.c:538-580 | disconnect frees coherent memory iff the pipe uses system memory and still holds its physical base; it always begins by disconnecting and freeing the endpoint |
| PipeBackend.ConnectPipeIpa | drivers/platform/msm/usb_bam.c:379-536 | callbacks are stored iff the BAM handle resolves; success iff `sps_connect` was called and `ipa_disconnect` was not; each failure after a successful `ipa_connect` ends with `ipa_disconnect`; success has allocated a non-NULL endpoint and reports the IPA endpoint index |
| PipeBackend.ConnectPipeIpaAllocation | drivers/platform/msm/usb_bam.c:455-466 | the endpoint slot is written exactly on success or on a rollback through `ipa_disconnect`; then `ipa_connect` was called and the slot holds what the allocation returned; a failure that logged `ipa_connect` without writing the slot is `ipa_connect`'s own error, and `ipa_connect` is its last call |
| PipeBackend.ApplyIpaOutcome | drivers/platform/msm/usb_bam.c:379-536 | connect_pipe_ipa's writes to the connection: the peer-side pipe index becomes the IPA endpoint (the destination for USB-to-peer, the source otherwise), the callbacks change only when stored, and identity fields and `enabled` are kept |
| PeerHandshake.Enqueue | drivers/platform/msm/usb_bam.c:866-873 | queuing the worker adds one outstanding run: a queued run, or `pending_work` + 1 when one is already queued; the handshake fields are kept |
| PeerHandshake.ClientReady | drivers/platform/msm/usb_bam.c:855-876 | setting `client_ready` to its current value changes nothing; a new value is stored and adds one outstanding worker run |
| PeerHandshake.AckToggle | drivers/platform/msm/usb_bam.c:1038-1063 | a plug bit equal to the last processed one changes nothing; a new one sets `ack_received`, records the bit and adds one outstanding run |
| PeerHandshake.SmWorkTakesLegalEdge | drivers/platform/msm/usb_bam.c:984-1026 | one worker run takes at most one edge, only a legal one (INIT→PLUG_NOTIFIED on ready, PLUG_NOTIFIED→PLUG_ACKED on ack, PLUG_ACKED→UNPLUG_NOTIFIED on not ready, UNPLUG_NOTIFIED→INIT on ack), takes it whenever it is enabled, clears the ack it consumes, and emits the plug/unplug notification or reset callback exactly on the matching edge |
| PeerHandshake.SmWorkConsumesOne | drivers/platform/msm/usb_bam.c:1028-1035 | a run of the queued worker consumes exactly one outstanding run, decrementing `pending_work` when positive, and keeps the invariant |
| PeerHandshake.ReplayKeepsInv | drivers/platform/msm/usb_bam.c:984-1063 | any sequence of client-ready, ack-toggle, enqueue and worker events keeps the handshake invariant |
| PeerHandshake.DrainEmpties | drivers/platform/msm/usb_bam.c:1028-1035 | running the worker once per outstanding run leaves nothing queued and `pending_work` at 0 |
| PeerHandshake.Handshake.QueueWork | drivers/platform/msm/usb_bam.c:866-873 | the stored handshake becomes `Enqueue` of the old one; nothing else changes |
| PeerHandshake.Handshake.ClientReadyChanged | drivers/platform/msm/usb_bam.c:855-876 | returns 0 and stores `ClientReady` of the old handshake |
| PeerHandshake.Handshake.AckToggleCb | drivers/platform/msm/usb_bam.c:1038-1063 | stores `AckToggle` of the old handshake |
| PeerHandshake.Handshake.SmWorkRun | drivers/platform/msm/usb_bam.c:984-1036 | stores the worker's step and appends its notification (if any) to the effect log |
| PeerHandshake.Handshake.RegisterPeerResetCb | drivers/platform/msm/usb_bam.c:1117-1144 | records whether a callback is set; with a callback, returns the SMSM registration result, and a successful registration with the modem plugged in acts as a plug ack |
| UsbBam.WakeFilterOncePerBam | drivers/platform/msm/usb_bam.c:954-982 | a per-pipe wake is always queued and keeps the flag; a global wake is queued iff the BAM is marked inactive and clears the mark, so a second back-to-back global wake is dropped; other events are not queued |
| UsbBam.LpmDeferredUntilHandshakeEnds | drivers/platform/msm/usb_bam.c:1910-1924 | once an HSUSB IPA connect starts the handshake, `msm_bam_lpm_ok` refuses and records the request; `usb_bam_start_lpm` then suspends the core and later queries are allowed; without a refused request `usb_bam_start_lpm` does not suspend |
| UsbBam.A2ResetTarget | drivers/platform/msm/usb_bam.c:1354-1356 | the corrected reset target: a BAM is reset iff some a2 pipe was disconnected, and it is that pipe's BAM |
| UsbBam.A2ResetAsWrittenIndexesPastEnd | drivers/platform/msm/usb_bam.c:1322 | as written, with no enabled a2 pipe the reset is still issued with index 255; with one the two targets agree |
| UsbBam.IndexGuardOffByOne | drivers/platform/msm/usb_bam.c:605 | the guard `idx > max_connections` accepts idx == max_connections; the corrected guard accepts exactly 0 <= idx < max_connections |
| UsbBam.BamManager.constructor | drivers/platform/msm/usb_bam.c:1801-1821 | probe state: the table from the platform data with nothing enabled, all counters, timers and flags zero, grants released, nothing logged |
| UsbBam.BamManager.FirstPipeOfBam | drivers/platform/msm/usb_bam.c:193-199 | finds the first table entry of the BAM, or -1 iff there is none |
| UsbBam.BamManager.SetInactivityTimer | drivers/platform/msm/usb_bam.c:180-214 | arms the BAM's one-shot timer with its stored period iff the SPS pipe slot of the BAM's first table entry holds a handle (`TimerReachable`); with no first entry, or with that slot still NULL, nothing is called; the slot always holds a handle while that first entry is enabled |
| UsbBam.FirstPipeHasHandleUpdate | drivers/platform/msm/usb_bam.c:193-199 | the search for a BAM's first entry looks at BAM types only, so rewriting an entry without changing its BAM keeps whether the timer is reachable |
| UsbBam.BamManager.StoreEndpoint | drivers/platform/msm/usb_bam.c:221-234 | the endpoint allocation writes the entry's SPS pipe slot and no other; a disabled entry's slot may change without breaking the invariant |
| UsbBam.BamManager.EnableEntry | drivers/platform/msm/usb_bam.c:624-625 | sets `enabled` and the FIFO base of a disabled entry that holds a pipe handle, and increments its BAM's counter only |
| UsbBam.BamManager.Connect | drivers/platform/msm/usb_bam.c:582-629 | unprobed gives -ENODEV; an already-enabled index returns 0 with no call and no change; a missing index out-parameter gives -EINVAL; otherwise the result is `connect_pipe`'s, preceded by a device reset when the BAM requires it and has no enabled pipe, and the entry's SPS pipe slot records whether `sps_alloc_endpoint` gave a handle; success sets `enabled` and increments only this BAM's counter; failure leaves table and counters unchanged; the table–counter invariant holds and every enabled entry holds a pipe handle |
| UsbBam.BamManager.DisconnectPipe | drivers/platform/msm/usb_bam.c:1146-1179 | returns 0; a disabled index changes nothing; otherwise the pipe's resources are released, `enabled` cleared and only this BAM's counter decremented; counters stay non-negative and the invariant holds |
| UsbBam.BamManager.WaitForProdGranted | drivers/platform/msm/usb_bam.c:744-773 | requests the producer and records GRANTED when the request succeeds at once, otherwise leaves the state to the notify callback |
| UsbBam.BamManager.WaitForProdRelease | drivers/platform/msm/usb_bam.c:1198-1224 | releases the producer and records RELEASED when the release succeeds at once |
| UsbBam.BamManager.ProdNotifyCb | drivers/platform/msm/usb_bam.c:631-653 | a GRANTED or RELEASED notification is recorded for the BAM; any other event leaves the states unchanged |
| UsbBam.BamManager.ConsRequestResource | drivers/platform/msm/usb_bam.c:655-667 | always records GRANTED; returns 0 iff the BAM has an enabled pipe, else -EINPROGRESS |
| UsbBam.BamManager.ConsReleaseResource | drivers/platform/msm/usb_bam.c:679-691 | always records RELEASED; returns 0 iff the BAM has no enabled pipe, else -EINPROGRESS |
| UsbBam.BamManager.ConnectIpa | drivers/platform/msm/usb_bam.c:775-853 | no params or an index >= max_connections gives -EINVAL with no change; HSUSB starts the handshake gate; an enabled pipe returns 0 with no call; otherwise device reset, producer grant, `connect_pipe_ipa` (whose endpoint allocation sets the entry's SPS pipe slot), then on success `enabled`, the counter +1, the inactivity timer (only when the BAM's first entry's slot holds a handle) and the consumer-granted notification; the exact call list is `IpaConnectCalls` |
| UsbBam.BamManager.ConnectIpaPipe | drivers/platform/msm/usb_bam.c:816-851 | the not-yet-enabled path of `usb_bam_connect_ipa`: the table, counter, SPS pipe slots, call log and producer state it leaves; after a success the timer is reachable whenever this entry is its BAM's first |
| UsbBam.BamManager.BeginIpaConnect | drivers/platform/msm/usb_bam.c:816-830 | the reset, producer wait and `connect_pipe_ipa` step, with the connection's writes and the SPS pipe slot the allocation stored |
| UsbBam.BamManager.FinishIpaConnect | drivers/platform/msm/usb_bam.c:830-851 | on success hands back the client handle and enables the pipe; on failure returns the error with table, counter and log unchanged |
| UsbBam.BamManager.EnableIpaPipe | drivers/platform/msm/usb_bam.c:836-849 | sets `enabled` and increments the BAM's counter; the calls are `IpaEnableCalls`: the timer is armed iff this is the BAM's first enabled pipe, it has a period and an inactivity callback and its first entry's SPS pipe slot holds a handle, and a granted consumer of an incoming pipe is notified |
| UsbBam.BamManager.ArmTimerOnFirstEnable | drivers/platform/msm/usb_bam.c:518-524 | arms the timer iff the BAM has no enabled pipe yet, a period, an inactivity callback and a reachable first handle; nothing else changes |
| UsbBam.BamManager.RunConnectPipeIpa | drivers/platform/msm/usb_bam.c:379-536 | runs `connect_pipe_ipa`: logs its plan, applies its writes to the connection and stores the allocated endpoint in the entry's slot |
| UsbBam.BamManager.StartLpm | drivers/platform/msm/usb_bam.c:1181-1196 | updates the gate as `StartLpmStep` and suspends the core iff LPM was scheduled |
| UsbBam.BamManager.LpmOk | drivers/platform/msm/usb_bam.c:1910-1924 | answers and updates the gate as `LpmOkStep` |
| UsbBam.BamManager.DisconnectIpa | drivers/platform/msm/usb_bam.c:1239-1315 | no handle gives -EINVAL with no call; otherwise returns the first failing `ipa_disconnect` result or 0; the exact call list is `DisconnectIpaCalls` (producer release, each half's IPA and pipe disconnect, the consumer-released completion, the deferred suspend); the producer state becomes RELEASED iff the release succeeds at once; a succeeding producer disconnect disables that entry even when the consumer's then fails; the consumer entry is disabled iff its disconnect succeeds, and then the gate moves as `StartLpmStep`; every other entry and the gate on any other path are unchanged |
| UsbBam.BamManager.DisconnectIpaConsumer | drivers/platform/msm/usb_bam.c:1281-1311 | the consumer half: result of `ipa_disconnect`; on success the pipe is disabled and the gate moves as `StartLpmStep`; on failure nothing changes; the calls are `ConsumerDisconnectCalls` |
| UsbBam.BamManager.DisconnectIpaProducer | drivers/platform/msm/usb_bam.c:1255-1278 | the producer half: releases the producer (RELEASED iff the release succeeds at once), then `ipa_disconnect`; on success the pipe is disabled, on failure the table is unchanged; the result is `ipa_disconnect`'s |
| UsbBam.DisconnectIpaFreesNoCoherent | drivers/platform/msm/usb_bam.c:1239-1315 | none of the calls of `usb_bam_disconnect_ipa` frees coherent memory, because each half clears the FIFO physical bases before disconnecting its pipe |
| UsbBam.BamManager.DisconnectIpaPipe | drivers/platform/msm/usb_bam.c:1263-1278 | `ipa_disconnect`; on success the FIFO physical bases are cleared and the pipe disconnected and disabled; on failure the table is unchanged; the calls are `IpaPipeDisconnectCalls` |
| UsbBam.BamManager.SpsEvents | drivers/platform/msm/usb_bam.c:1375-1420 | a timer IRQ marks the BAM inactive and queues an inactivity event on its first pipe only; other callbacks change nothing |
| UsbBam.BamManager.WakeCb | drivers/platform/msm/usb_bam.c:954-982 | queues the pipe's event and updates the BAM's inactivity flag as `WakeFilter` decides |
| UsbBam.BamManager.RegisterWakeCb | drivers/platform/msm/usb_bam.c:1065-1109 | an index outside the table gives -EINVAL with table and log unchanged (the corrected guard, see Findings); otherwise sets the pipe's event to a per-pipe or global wake, registers it, sets the options only if registration succeeded, and returns the first failing result or 0 |
| UsbBam.BamManager.Work | drivers/platform/msm/usb_bam.c:878-952 | a wake runs the callback and re-arms the timer when a period is set and the BAM's first entry's SPS pipe slot holds a handle; an inactivity event re-registers the wake on every enabled peer-to-USB pipe of the BAM and then runs the callback; the work item is consumed |
| UsbBam.BamManager.RearmWakes | drivers/platform/msm/usb_bam.c:927-941 | the re-registration loop of the inactivity event, entry by entry |
| UsbBam.BamManager.StoreInactivityTimer | drivers/platform/msm/usb_bam.c:1745-1752 | stores the period; applies it at once iff the BAM has enabled pipes and its first entry's SPS pipe slot holds a handle, which is always so when that first entry is enabled |
| UsbBam.BamManager.GetConnectionIdx | drivers/platform/msm/usb_bam.c:1886-1907 | -EINVAL for an unknown core name; otherwise the lowest matching index by BAM, peer, direction and pipe number, or -ENODEV iff none matches |
| UsbBam.BamManager.A2Reset | drivers/platform/msm/usb_bam.c:1317-1373 | non-a2 or disabled entries are kept; each enabled a2 pipe ends enabled iff its reconnect succeeds and its SPS pipe slot records the reconnect's endpoint allocation; returns the code of the last reconnect that failed (`LastFailure` of `ReconnectCodes`), so 0 iff all of them reconnected |
| UsbBam.BamManager.DisconnectA2Pipes | drivers/platform/msm/usb_bam.c:1325-1353 | disables exactly the enabled a2 pipes and records them for reconnection; the BAM it reports is `LastA2Bam`, that of the last enabled a2 pipe, and there is one iff some a2 pipe was enabled |
| UsbBam.BamManager.DisconnectA2Pipe | drivers/platform/msm/usb_bam.c:1331-1352 | one pass of the first loop: an enabled a2 entry has its USB pipe index recorded and is disabled, and the pass reports it; any other entry, and every other index, is unchanged |
| UsbBam.LastA2BamIsLast | drivers/platform/msm/usb_bam.c:1329-1347 | the `bam` the first loop leaves names a BAM iff some entry is an enabled a2 pipe, and then it is the BAM of such an entry with no enabled a2 entry after it |
| UsbBam.BamManager.ReconnectA2Pipe | drivers/platform/msm/usb_bam.c:1359-1368 | one pass of the reconnect loop: a recorded pipe is reconnected, its code (that of `connect_pipe`) replaces `ret` when non-zero, it ends enabled iff that code is 0 and its SPS pipe slot records the endpoint allocation; an unrecorded entry is left alone; no other entry or slot changes |
| UsbBam.BamManager.ReconnectA2Pipes | drivers/platform/msm/usb_bam.c:1358-1372 | each recorded pipe ends enabled iff its reconnect succeeds and its slot records the allocation, the others are kept; returns the last failing reconnect's code (`LastFailure` of `ReconnectCodes`), so 0 iff all did |
| UsbBam.BamManager.ReconnectRecorded | drivers/platform/msm/usb_bam.c:1358-1372 | the reconnect loop given each entry's code: every recorded pipe ends enabled iff its code is 0 with its slot set by the allocation, unrecorded entries and slots are untouched, and the result is the last non-zero code |
| UsbBam.LastFailureReportsFailure | drivers/platform/msm/usb_bam.c:1362-1367 | `ret = ret_int` on each failure leaves 0 iff every code is 0, and otherwise one of the failing codes |
| SspTransport.ScanFrom | drivers/sensorhub/stm/ssp_i2c.c:98-110 | the first non-zero byte at or after i, or -EFAULT iff all of them are zero |
| SspTransport.RecvStart | drivers/sensorhub/stm/ssp_i2c.c:98-110 | the index of the first non-zero byte, or -EFAULT iff every byte is zero |
| SspTransport.CheckRecvStart | drivers/sensorhub/stm/ssp_i2c.c:98-110 | the scanning loop returns exactly the first non-zero index, or -EFAULT iff the window is all zeros |
| SspTransport.FirstReplyWindow | drivers/sensorhub/stm/ssp_i2c.c:176-187 | the first of the initial window and up to 100 re-syncs in which the reply has started, or none |
| SspTransport.Extract | drivers/sensorhub/stm/ssp_i2c.c:196-206 | the reply is exactly `uRxLength` bytes: the window's bytes from the start position, topped up from a follow-up transfer of exactly the missing length when fewer are available |
| SspTransport.ReadReplySpec | drivers/sensorhub/stm/ssp_i2c.c:149-235 | the read returns reply x iff some pass within the retries produces x after all earlier passes failed and the clock had not run out |
| SspTransport.OnlyFirstPass | drivers/sensorhub/stm/ssp_i2c.c:214-222 | when the first pass succeeds, or fails after the clock ran out or with no retry left, the read's reply is exactly the first pass's, and no later pass can deliver one |
| SspTransport.LaterPass | drivers/sensorhub/stm/ssp_i2c.c:214-235 | when the first pass fails with time and retries left, the read's replies are exactly those of the remaining passes with one retry fewer (the induction step of `ReadReplySpec`) |
| SspTransport.OneWindowSuffices | drivers/sensorhub/stm/ssp_i2c.c:203-206 | when the reply starts within the first `uTxLength + 12` bytes of the window, the window holds the whole reply and the follow-up transfer is not used |
| SspTransport.ReplyStartsNonZero | drivers/sensorhub/stm/ssp_i2c.c:177-205 | a delivered reply begins with a non-zero byte, the start marker |
| SspTransport.ReadPass | drivers/sensorhub/stm/ssp_i2c.c:149-213 | one pass writes the extracted reply into the buffer iff the reply started and the transfer succeeded |
| SspTransport.I2cRead | drivers/sensorhub/stm/ssp_i2c.c:133-240 | the retrying read succeeds iff `ReadReply` delivers a reply, and then the receive buffer holds it |
| SspTransport.PollLine | drivers/sensorhub/stm/ssp_i2c.c:34-37 | the poll count reaches LIMIT_DELAY_CNT iff the line stayed low for all polls (and no shutdown stopped it); otherwise it is the first high poll |
| SspTransport.BusyCountsTrailingTimeouts | drivers/sensorhub/stm/ssp_i2c.c:39-44 | over a series of wake-ups the busy counter equals the old count plus all of them if every one timed out, else the number of timeouts since the last success |
| SspTransport.AfterSnoc | drivers/sensorhub/stm/ssp_i2c.c:39-58 | one more wake-up updates both counters by the increment-or-reset rule |
| SspTransport.TrailingAllTimedOut | drivers/sensorhub/stm/ssp_i2c.c:39-44 | if only the first of a series succeeded, the trailing timeout count is the rest of the series |
| SspTransport.TrailingSkipsHead | drivers/sensorhub/stm/ssp_i2c.c:39-44 | when some later wake-up of the series succeeded, the first one does not affect the trailing timeout count |
| SspTransport.FirstAck | drivers/sensorhub/stm/ssp_i2c.c:337-359 | the first ACK reply among the resends, with no ACK before it |
| SspTransport.ReadsMade | drivers/sensorhub/stm/ssp_i2c.c:337-359 | an exchange makes between 1 and DEFAULT_RETRIES + 1 reads |
| SspTransport.AckOutcomeSpec | drivers/sensorhub/stm/ssp_i2c.c:337-359 | the exchange is SUCCESS iff the first read worked and some read within the retries was an ACK; ERROR iff the first read failed |
| SspTransport.FrameRoundTrip | drivers/sensorhub/stm/ssp_i2c.c:299-330 | the frame is `[MSG2SSP_SSM, len+4, opcode, sensor type, payload]`, and decoding it gives back opcode, sensor type and payload |
| SspTransport.OpcodeMap | drivers/sensorhub/stm/ssp_i2c.c:299-325 | the seven named instructions map to their MSG2SSP opcodes and any other instruction passes through unchanged |
| SspTransport.Be24RoundTrip | drivers/sensorhub/stm/ssp_i2c.c:570-576 | the 3-byte big-endian revision decode and encode are inverse |
| SspTransport.Be16Injective | drivers/sensorhub/stm/ssp_i2c.c:552-557 | the 2-byte big-endian scanning-info decode distinguishes all replies |
| SspTransport.FuseRomAsWritten | drivers/sensorhub/stm/ssp_i2c.c:592-633 | as written: SUCCESS exactly when the length read succeeds with a non-zero length and the library read succeeds |
| SspTransport.FuseRomRead | drivers/sensorhub/stm/ssp_i2c.c:592-633 | corrected: SUCCESS exactly when the length read succeeds with a length of at least 3 and the library read succeeds, and then the copied indices 0, 1, 2 all lie inside the library reply; otherwise nothing is copied |
| SspTransport.FuseRomAsWrittenReadsPastBuffer | drivers/sensorhub/stm/ssp_i2c.c:598-626 | as written, a reported length of 1 or 2 with a successful library read returns SUCCESS after copying an index past the end of the reply; the corrected outcome is FAIL |
| SspTransport.FuseRomGuardsDifferOnlyOnShortLength | drivers/sensorhub/stm/ssp_i2c.c:598-626 | the as-written and corrected outcomes differ exactly for a successful library read of length 1 or 2 |
| SspTransport.SspHub.WaitingWakeupMcu | drivers/sensorhub/stm/ssp_i2c.c:31-65 | each counter is incremented on a timeout of its line and reset otherwise; ERROR iff shut down |
| SspTransport.SspHub.WaitingInitMcu | drivers/sensorhub/stm/ssp_i2c.c:67-96 | the same counter rule without a shutdown check; always SUCCESS |
| SspTransport.SspHub.Exchange | drivers/sensorhub/stm/ssp_i2c.c:133-240 | sends the command once and returns `ReadReply` |
| SspTransport.SspHub.AckExchange | drivers/sensorhub/stm/ssp_i2c.c:337-359 | resends the frame until an ACK or DEFAULT_RETRIES resends; `uInstFailCnt` is reset on success and incremented on failure; the wake counters follow each resend |
| SspTransport.SspHub.Resend | drivers/sensorhub/stm/ssp_i2c.c:337-352 | the resend loop: acked iff an ACK arrives within the retries, with one request per resend |
| SspTransport.SspHub.SendCmd | drivers/sensorhub/stm/ssp_i2c.c:242-276 | shutdown gives ERROR with nothing sent; otherwise the one-byte command is exchanged under the ACK-retry rule |
| SspTransport.SspHub.SendInstruction | drivers/sensorhub/stm/ssp_i2c.c:278-360 | while downloading firmware returns SUCCESS, and for a disabled sensor with `uInst <= CHANGE_DELAY` returns FAIL, both without sending; otherwise the frame is sent under the ACK-retry rule |
| SspTransport.SspHub.GetFirmwareRev | drivers/sensorhub/stm/ssp_i2c.c:560-577 | the revision is the big-endian value of the 3 reply bytes, or 99999 on read failure |
| SspTransport.SspHub.GetSensorScanningInfo | drivers/sensorhub/stm/ssp_i2c.c:543-558 | the info is the big-endian value of the 2 reply bytes, or 0 on failure |
| SspTransport.SspHub.GetFuseromData | drivers/sensorhub/stm/ssp_i2c.c:579-641 | failure of either read, or a length too short for three bytes, zeroes the fuse ROM and returns FAIL; success stores the first three library bytes and frees the library; the status and copied bytes are those of the corrected outcome `FuseRomRead` |
| SspTransport.SspHub.ReceiveMsg | drivers/sensorhub/stm/ssp_i2c.c:643-676 | a zero length reads nothing and returns FAIL; a failed read returns ERROR and hands nothing on; otherwise the frame of that length is handed on and its length returned |
| SspTransport.SspHub.SelectIrqMsg | drivers/sensorhub/stm/ssp_i2c.c:678-721 | transfer failure gives ERROR; RTS reads `chRxBuf[1]` bytes and resets `uSsdFailCnt`; STT on a configured hub resets it; NO_DATA changes nothing; any other reply increments it only when both bytes are zero |
| Bmg160.DecodeMode | drivers/sensors/bmg160.c:240-253 | LPM2 bit 6 gives ADVANCEDPOWERSAVING; else bit 5 of LPM1 gives DEEPSUSPEND; else bit 7 gives FASTPOWERUP or SUSPEND by the fast-powerup bit; else NORMAL, or no decision when the fast-powerup bit is set |
| Bmg160.Lpm1Values | drivers/sensors/bmg160.c:240-243 | `(b1 & 0xA0) >> 5` is one of 0, 1, 4, 5 |
| Bmg160.ModeAfter | drivers/sensors/bmg160.c:229-256 | `*mode` keeps its prior value exactly when the decoder makes no decision |
| Bmg160.AutoSleepFloorTable | drivers/sensors/bmg160.c:167-218 | the floors are 4 ms for no filter, 230 Hz and 116 Hz; 5 ms for 47 Hz; 10 ms for 23 Hz and 64 Hz; 20 ms for 12 Hz and 32 Hz; none for an unknown bandwidth |
| Bmg160.AutoSleepDur | drivers/sensors/bmg160.c:158-227 | the written duration is the larger of the requested one and the bandwidth's floor, or no auto-sleep for an unknown bandwidth |
| Bmg160.AutoSleepDurIdempotent | drivers/sensors/bmg160.c:167-218 | clamping a clamped duration changes nothing |
| Bmg160.AutoSleepDurMonotone | drivers/sensors/bmg160.c:167-218 | a longer request never gives a shorter duration |
| Bmg160.Int8 | drivers/sensors/bmg160.c:389 | the `(signed char)` cast of a byte is in -128..127 and agrees with it modulo 256 |
| Bmg160.Sample | drivers/sensors/bmg160.c:388-395 | the assembled s16 sample has the LSB as its low byte and the MSB as its high byte |
| Bmg160.SampleRoundTrip | drivers/sensors/bmg160.c:388-395 | every s16 value is assembled from its own two bytes |
| Bmg160.Wrap16 | drivers/sensors/bmg160.c:399-411 | truncation to `short` agrees with the value modulo 2^16 and is the identity in range |
| Bmg160.ScaleAt250 | drivers/sensors/bmg160.c:399-402 | at 250 dps the result plus the offset is the sample shifted right by one (floor of half) |
| Bmg160.ScaleAt2000 | drivers/sensors/bmg160.c:403-406 | at 2000 dps, for samples small enough, the result is four times the sample minus the offset |
| Bmg160.ScaleAt2000Wraps | drivers/sensors/bmg160.c:403-406 | at 2000 dps the shift wraps: sample 0x2000 reads as -32768 |
| Bmg160.ScaleOtherRange | drivers/sensors/bmg160.c:407-411 | at any other range, for in-range values, the result is the sample minus the offset |
| Bmg160.ScaleAtOffset | drivers/sensors/bmg160.c:407-411 | a sample whose uncalibrated scaled value equals the calibration offset reads as 0, in every range |
| Bmg160.ReadAtCalibrationPointIsZero | drivers/sensors/bmg160.c:380-414 | in every range, registers whose uncalibrated reading equals the calibration offsets read as zero on every axis |
| Bmg160.ReportAsWritten | drivers/sensors/bmg160.c:435-437 | as written, the report is the already-calibrated sample minus the offset once more |
| Bmg160.ReportAsWrittenSubtractsTwice | drivers/sensors/bmg160.c:435-437 | with offset 10 on X and a raw X reading of 10, the sample reads 0 but is reported as -10 |
| Bmg160.DpsFromInput | drivers/sensors/bmg160.c:727-734 | 250 maps to RANGE_250DPS and 2000 to RANGE_2000DPS; every other input, 500 included, maps to RANGE_500DPS |
| Bmg160.DpsRoundTrip | drivers/sensors/bmg160.c:727-734 | each range code read back as degrees maps to itself; RANGE_250DPS and RANGE_2000DPS are selected iff the input is 250 or 2000 |
| Bmg160.SelftestVerdict | drivers/sensors/bmg160.c:776-779 | 1 iff bist-fail is 0 and rate-ok is 1, else -EIO |
| Bmg160.TruncDiv | drivers/sensors/bmg160.c:625-627 | C division truncates toward zero: the remainder has the sign of the dividend and is smaller than the divisor |
| Bmg160.SumBounds | drivers/sensors/bmg160.c:609-622 | the sum of n s16 readings lies within n times the s16 range |
| Bmg160.TruncDivBounds | drivers/sensors/bmg160.c:625-627 | the truncated mean of 20 s16 readings fits in s16 |
| Bmg160.OffsetsOfConstantRun | drivers/sensors/bmg160.c:609-630 | calibrating over 20 equal readings gives that reading as the offsets |
| Bmg160.Readings | drivers/sensors/bmg160.c:609-622 | the calibration samples are read uncalibrated at the current range |
| Bmg160.Gyro.constructor | drivers/sensors/bmg160.c:970-980 | probe state: disabled, 500 dps, zero offsets and counters, the chip put in suspend |
| Bmg160.Gyro.OpenCalibration | drivers/sensors/bmg160.c:547-587 | the offsets become zero when the file cannot be opened (with the open error), what the read stored when it read something, and stay as they were when the read fails or reads nothing; the result is -EIO for a short or failed read or when the offsets left are all zero, and otherwise the 12 bytes read |
| Bmg160.Gyro.SetEnable | drivers/sensors/bmg160.c:444-463 | a repeated request changes nothing; 0→1 loads the calibration, sets normal mode and starts polling; 1→0 sets suspend and stops polling |
| Bmg160.Gyro.EnableStore | drivers/sensors/bmg160.c:473-491 | acts only on the parsed values 0 and 1; a parse error is returned, any other value is ignored |
| Bmg160.Gyro.SelftestDpsStore | drivers/sensors/bmg160.c:719-740 | stores `DpsFromInput` of the input as the range |
| Bmg160.Gyro.WorkFunc | drivers/sensors/bmg160.c:416-442 | a failed read increments `i2cfail_cnt`; polling continues iff the count is at most 5; while it does, the calibrated sample is stored and reported once |
| Bmg160.Gyro.SampleSums | drivers/sensors/bmg160.c:609-622 | the accumulation loop yields the per-axis sums of the uncalibrated readings |
| Bmg160.Gyro.DoCalibrate | drivers/sensors/bmg160.c:589-660 | enabling sets each offset to the truncated mean of 20 readings (powering the chip up and down around them if it was off); disabling zeroes them; the offsets are stored when the file opens |

## Left out

- I/O and timing: SPS, IPA, SMSM, clock, DMA and ioremap calls, SPI transfers, GPIO levels, I2C transfers and the calibration file are oracle inputs; delays, `mdelay`/`udelay`, and the 4-second wall clock of `ssp_i2c_read` are an input flag per pass.
- The 10-second completion waits of the RM grant and release become an immediate grant-or-not outcome; `wait_for_cons_release` only waits and is not modelled; `ipa_rm_notify_completion` is a log entry only.
- `usb_bam_sps.sps_pipes` is kept only as whether each slot is non-NULL (`BamManager.spsPipes`); the SPS pipe objects themselves are not modelled.
- Spinlocks, mutexes and the workqueue: every operation is one atomic step, and a queued work item is a flag the worker step consumes.
- `kzalloc` failures (-ENOMEM in `ssp_i2c_read`) and the buffer frees are not modelled.
- Device-tree parsing, `usb_bam_init`, `enable_usb_bams`, sysfs show formatting, `usb_bam_get_qdss_idx`, `get_bam2bam_connection_info` and the rest of the probe are not modelled; the table arrives as a constructor argument.
- UsbBam.BamManager.StoreInactivityTimer: the sysfs string parsing is left out; it takes a parsed BAM id and period, so an unknown name (which the source turns into the index -EINVAL) is not modelled.
- UsbBam.BamManager.A2Reset: the hardware log is stated only to grow (`old(hw) <= hw`), not as the exact list of calls.
- UsbBam.BamManager.ConnectIpa: `usb_bam_connect_ipa` reads the platform data through `ctx.usb_bam_pdev` (usb_bam.c:781-782) with no NULL test, so a call before probe crashes in the source; the model, whose unprobed table is empty, returns -EINVAL with no change instead.
- UsbBam.BamManager.DisconnectIpa: the completion waits of `wait_for_prod_release` (after -EINPROGRESS) and `wait_for_cons_release` are not modelled: they block with a timeout and change no state the model keeps, so the producer state stays as it was until `ProdNotifyCb` records the release.
- UsbBam.BamManager.Connect: `usb_bam_connect` reads the entry before its bounds check, and the guard is off by one; the model requires idx < max_connections and records the guard under Findings.
- UsbBam.BamManager.Connect: it runs the corrected `connect_pipe` (`PipeBackend.ConnectPipe`); for private memory with a failing `mem_iface_clk`, or an unknown memory type, the source gets 0 after the endpoint is freed and marks the pipe enabled and counts it, where the model returns the error and changes nothing (Findings, first row).
- UsbBam.BamManager.RegisterWakeCb: it uses the corrected guard `IndexRejected`, so `idx == max_connections` gives -EINVAL where the source indexes one past the table (Findings, second row).
- UsbBam.BamManager.A2Reset: its reconnects run the corrected `connect_pipe`, so for the two faulty paths of the first Findings row a pipe the source reports reconnected (code 0) ends disabled with an error code in the model; the BAM reset uses the corrected target `A2ResetTarget` (third Findings row). A failing `usb_bam_disconnect_pipe` cannot occur: `disconnect_pipe` (usb_bam.c:538-580) always returns 0.
- UsbBam.BamManager.ReconnectA2Pipe: it runs the corrected `connect_pipe`, with the difference stated for `Connect`.
- UsbBam.BamManager.ReconnectA2Pipes: it runs the corrected `connect_pipe`, with the difference stated for `Connect`.
- SspTransport.SspHub.GetFuseromData: it follows the corrected guard (`FuseRomRead`): a reported length of 1 or 2 is FAIL with zeroed fuse ROM data and no library read, where the source reads the library, copies three bytes past the reply and returns SUCCESS (fourth Findings row, `FuseRomAsWritten`).
- SspTransport.SspHub.ReceiveMsg: the -ENOMEM return of a failed frame allocation is not modelled, like every `kzalloc` failure.
- `wait_for_prod_granted` does not return early when the producer is already granted: it always requests again. The model follows the code.
- `strnstr` compares up to the given length whatever the terminator, so bytes stored after a short name (in its 50-byte buffer) can match "a2" or a core-name pattern; the model searches the name as a sequence and treats every position past its end as non-matching.
- The IPA connect out-parameters other than the client handle and pipe indices (the BAM handle, FIFO descriptors) are not modelled.
- `parse_dataframe`, `ssp_sensorhub_handle_large_data`, `show_ssp_data` and the `DEBUG_SHOW_DATA` code are not modelled; a received message is appended to `frames`.
- `get_chipid`, `set_sensor_position`, `set_proximity_threshold`, `set_proximity_barcode_enable` and `set_gesture_current` are thin wrappers over `send_instruction` and are not modelled.
- SspTransport.I2cRead: the receive buffer's contents after a failed read are not stated.
- The unsigned counters `uBusyCnt`, `uTimeOutCnt`, `uInstFailCnt`, `uSsdFailCnt` and `i2cfail_cnt` do not wrap in the model.
- `1 << uSensorType` in the `send_instruction` gate is computed without the 32-bit overflow it has for sensor types of 32 or more.
- The message codes of `ssp.h` and the register masks and enum codes of `bmg160_reg.h` are parameters (`SspConsts`, `Bmg160.Consts`).
- The BMG160 `*_BITSLICE` extractions are not modelled: `DecodeMode` reads the bits the masks select, and the 8-bit rate LSB values are inputs already masked.
- The register writes of `bmg160_set_autosleepdur`, `bmg160_set_mode`, `bmg160_set_bw` and `bmg160_set_range` are left out; a mode change is logged as `SetMode`.
- `remap_sensor_data` (the chip-position axis remap) is left out; scaling applies to the assembled axes.
- The calibration file holds `3 * sizeof(int)` bytes while the offsets are three `short`s; the model transfers the three offsets only.
- `bmg160_delay_store`/`_show`, `raw_data_show`, `calibration_show`, `calibration_store`, `selftest_dps_show`, suspend/resume and input-device setup are not modelled; `kstrtou8` and `sscanf` parsing are inputs.
- Bmg160.Gyro.WorkFunc: it reports the single-calibrated sample, the corrected behaviour of the double subtraction under Findings.
- Bmg160.Gyro.WorkFunc: a failed read with the count still at most 5 reports the given register values, where the source reports an uninitialised buffer.

## Findings

| source | as written | input that shows it | evidently intended | confidence | as-written member | corrected member |
|---|---|---|---|---|---|---|
| drivers/platform/msm/usb_bam.c:293 | `ret = IS_ERR(ctx.mem_clk)` is 0 when only `mem_iface_clk` failed, and the invalid-memory-type branch (354-356) leaves `ret` at 0; both free the endpoint and return success | private memory with a bad `mem_iface_clk`; or an unknown `mem_type` | return a negative error on every path that frees the endpoint | not executed | PipeBackend.ConnectPipeAsWrittenReportsRollbackAsSuccess | PipeBackend.ConnectPipe |
| drivers/platform/msm/usb_bam.c:605 | `if (idx > ctx.max_connections)` (also at 1074, in `__usb_bam_register_wake_cb`) lets `idx == max_connections` through and indexes one past the table | idx = max_connections | `idx >= ctx.max_connections`, as `usb_bam_connect_ipa` (795) has | not executed | UsbBam.IndexGuardOffByOne | UsbBam.BamManager.RegisterWakeCb |
| drivers/platform/msm/usb_bam.c:1322 | `u8 bam = -1` is 255, so `bam != -1` is always true and `sps_device_reset(ctx.h_bam[255])` runs when no a2 pipe was enabled | a table with no enabled a2 pipe | reset only when an a2 pipe was disconnected | not executed | UsbBam.A2ResetAsWrittenIndexesPastEnd | UsbBam.A2ResetTarget |
| drivers/sensorhub/stm/ssp_i2c.c:624-626 | the first three bytes of a buffer of `uLength` bytes are read for any `uLength` > 0 | the MCU reports a length of 1 or 2 | reject lengths below 3 | not executed | SspTransport.FuseRomAsWrittenReadsPastBuffer | SspTransport.SspHub.GetFuseromData |
| drivers/sensors/bmg160.c:435-437 | the report subtracts `caldata` from a sample that `bmg160_read_gyro_xyz` (400-410) has already calibrated | offset X = 10, raw X = 10 at 500 dps: reported -10 instead of 0 | report the calibrated sample once | not executed | Bmg160.ReportAsWrittenSubtractsTwice | Bmg160.ReadAtCalibrationPointIsZero |
