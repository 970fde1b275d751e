# Verified model of the ESP-NOW pairing, connection and reacquisition protocol

UngulaNetLib lets client devices find a coordinator over ESP-NOW, pair with it, keep the
connection supervised, and find the coordinator again when it moved to another WiFi channel.
This project models the four machines that do this, the persistent storage under them, and the
two algorithms of the HTTP server that update their data in place, and proves what they promise.
`dafny verify dfyconfig.toml` checks everything.

## How the model is built

Every machine appears twice. A datatype (`Client`, `Session`, `Node`, `Coordinator`, over `Radio`
and `Flash`) gives its state as a value with one function per operation. A class
(`PairingClient`, `EspNowSessionProvider`, `ConnectionManager`, `PairingCoordinator`, over
`Transport` and `Preferences`) has the fields, loops, branches and writes of the C++ class, and
each method is proved to do exactly its function: `View() == old(View()).Loop(nowMs)`. Theorems
are then lemmas about those functions and about runs, that is, arbitrary sequences of calls.

- Integers: `uint8_t` counters wrap at 256 (`Inc8`), clock readings are true time modulo 2^32
  (`Clock`), `now - start` is unsigned subtraction (`Elapsed`), deadlines wrap (`Add32`). The
  comparisons `nowMs < nextProbeMs_` stay plain, as in the code; `ClockWrap` proves exactly when
  they err, and the time bounds assume that no wrap falls between probes.
- Time bounds: products such as (P-1) I are written `RecoveryTime.Times(P - 1, I)`, repeated addition,
  proved equal to the product by `RecoveryTime.TimesIsProduct`.
- Flash: a map plus the log of all writes. Power failing inside a handler leaves the store after
  some prefix of that handler's writes (`Flash.Torn`).
- Radio: a channel, a peer set, and everything ever sent together with whether its destination
  was registered then. In `Agreement` a frame stays in its sender's outbox forever, and a step may
  deliver any of them, in any order, any number of times or never.

| file | content |
|---|---|
| Wire, Device | frames, clock arithmetic, radio, flash |
| PairingClient, PairingCoordinator, SessionProvider, ConnectionManager | the four machines |
| NodeRuns | a whole client device: joint invariant, radio agreement, peer discipline |
| Persistence, CoordinatorTable | restarts and power failure, client side and coordinator side |
| CoordinatorTraffic | what a coordinator transmits, and when |
| Agreement, AgreementLimits | the network with crashes, and exactly when agreement holds |
| Connectivity, Escalation, Coverage | the verdict over a wrapping clock, probe counting, fairness |
| RecoveryTime, Reconnect, Boot | worst-case recovery from silence and from power-up, up to being connected on the new channel |
| ClockWrap | when the deadline comparison errs, and what follows |
| NoStuckClient, Rendezvous, Handshake, Misdelivery | scanning liveness, discovery end to end, stray frames |
| WsClients | the WebSocket client array |
| QueryString, QueryParser | query strings as text, and the in-place tokenizer |

## Main results

1. Agreement (`AgreementLimits.SafeExactly`, `Agreement.PairedIsKnown`, `Agreement.ProbeIsAnswered`):
   with loss, duplication, reordering, restarts of either side and power failing between any two
   flash writes, whoever is PAIRED or could load a pairing is in the coordinator's table and
   flash, so its reconnect probe is always answered. This holds in every run if and only if nobody
   unpairs, no beacon reaches a waiting client, and either there are no more devices than slots or
   the ids are distinct and, where power can fail inside a claim, nonzero. Each failing case is a
   run of the network that ends with a paired device nobody knows.
2. Recovery (`Reconnect.RecoversEndToEnd`, `Boot.PowerCycleRecovers`, `Reconnect.ReconnectsAnytime`):
   a device whose coordinator falls silent, or that is power-cycled, while its coordinator sits on
   another channel of the list is connected and tuned to it again within an explicit bound; also
   from the middle of a rotation whose counter has wrapped.
3. Discovery (`Handshake.PairsWithinOneSweep`, `Handshake.PairsFromAnywhere`): a client at any point of
   an unbounded scan and a beaconing coordinator with room in its table are paired within one
   round and one dwell, on the coordinator's channel if and only if request and confirmation are
   quicker than the next beacon.
4. Restraint (`CoordinatorTraffic.AcksOnlyToTheTable`, `Agreement.AckedWasKnown`,
   `CoordinatorTraffic.BroadcastsExactly`): acks go to clients in the table and to nobody else, beacons
   go out while pairing is enabled and at no other time.
5. Fairness (`Coverage.FairRotation`, `Coverage.WindowIsTight`), the exact connectivity verdict
   (`Connectivity.TruthfulExactly`), escalation counting (`Escalation`), joint invariant and radio
   agreement (`NodeRuns`), crash-prefix results (`Persistence`, `CoordinatorTable`).
6. `WsClients.BroadcastIsFilter` and `QueryParser.ParsesBack` with the methods proved against them.

Where the code does less than one would expect, the project states the exact condition and a
failing run:

- The next beacon can overtake a confirmation, and the waiting client takes it for one: it is then
  paired on channel 0, and the coordinator may not know it (`Handshake.BeaconOvertakes`). That
  happens if and only if the confirmation does not arrive before the coordinator's next due poll
  (`Handshake.HandshakeEnds`).
- The deadline comparison errs if and only if a clock wrap lies between poll and deadline
  (`ClockWrap.PollRightIff`). The probes then stall for up to a whole epoch
  (`ClockWrap.StallsForAnEpoch`) or come in a burst (`ClockWrap.Bursts`); static probes are closer
  together than their interval if and only if the later one is sent in an earlier clock epoch than
  it is due in (`Escalation.ProbesAreSpaced`).
- `isConnected()` is truthful in every run if and only if poll gap and heartbeat timeout together
  stay below 2^32 (`Connectivity.TruthfulExactly`); otherwise silence aliases
  (`Connectivity.AliasedSilence`). One poll is right if and only if the silence has not aliased
  (`Connectivity.PollVerdict`). A contact at clock reading 0 never expires
  (`Connectivity.ZeroReadingNeverExpires`).
- An ack only noticed by the next poll can leave the radio on the wrong channel
  (`NodeRuns.PolledAckDetunes`); it does not if and only if the rotation stood at the paired
  channel (`NodeRuns.PolledAckMayDetune`).
- An interrupted first-time store mixes a new address with an old channel if and only if exactly
  one write was made while the flag key was still set over another channel
  (`Persistence.TornFirstStore`, `Persistence.TornTwice`).

Where documentation and code disagree the code is followed: `bootGracePeriodMs` is described as a
grace period before the first probe (src/connection/connection_config.h:73-74) but has no effect
(`Escalation.BootGraceIsNeverSeen`); the STATIC policy is described as escalating after a long
threshold (src/connection/connection_config.h:13-15) but never does
(`Escalation.StaticNeverEscalates`).

## Model

| member | source | states |
|---|---|---|
| Agreement.PairedIsKnown | src/pairing/pairing_coordinator.cpp:159-228 | After any run from first power-up with loss, duplication, reordering, restarts and power failure inside handlers, within the rules that fit the devices, a client that is PAIRED or whose flash is loadable is in the coordinator's table and its address is on the coordinator's flash: storing precedes confirming |
| Agreement.ProbeIsAnswered | src/pairing/pairing_coordinator.cpp:230-249 | Hence a reconnect probe of a PAIRED client is never dropped as unknown: an ack with the coordinator's channel goes out to it |
| Agreement.AckedWasKnown | src/pairing/pairing_coordinator.cpp:230-249 | Under any rules and any ids: a device that was never in the table is never sent an ack, in any run of the network |
| Agreement.RunAgreed | src/pairing/pairing_coordinator.cpp:69-93 | The joint invariant behind it (table well-formed, every slot of a known device, every accepting confirmation ever sent true of the present table, every believer known) survives every run |
| Agreement.StepAgreed | src/pairing/pairing_client.cpp:159-186 | and every single step of either side, crashes included |
| Agreement.NoEviction | src/pairing/pairing_coordinator.cpp:195-209 | With distinct ids, or no more devices than slots, no device's request ever evicts another device |
| Agreement.SmallHasRoom | src/pairing/pairing_coordinator.cpp:187-193 | With no more devices than slots, a device that is not in the table finds a free one, whatever the ids |
| Agreement.RequestStepOk | src/pairing/pairing_coordinator.cpp:159-175 | A known device's pairing request keeps the invariant and forgets nobody |
| Agreement.CrashedRequestOk | src/pairing/pairing_coordinator.cpp:211-225 | The same when power fails after any of the request's flash writes |
| Agreement.NodeStepBelief | src/pairing/pairing_client.cpp:262-290 | A device starts to believe in a pairing only by taking an accepting confirmation |
| Agreement.NodeCrashOk | src/pairing/pairing_client.cpp:284-290 | A device that restarts after losing power between two writes believes no more than before, plus the confirmation it was handling |
| AgreementLimits.SafeExactly | src/pairing/pairing_coordinator.cpp:159-228 | For real, distinct addresses: every run of the network keeps whoever believes to be paired in the table if and only if there are no devices, or nobody unpairs, no beacon reaches a client in RESPONDING, and either there are no more devices than slots or the ids are distinct and, if power can fail inside a claim, nonzero |
| AgreementLimits.FitIsSafe | src/pairing/pairing_coordinator.cpp:159-228 | The positive half |
| AgreementLimits.SharedIdLoses | src/pairing/pairing_coordinator.cpp:195-204 | A run of the network from first power-up: three devices, two with one id; the first is PAIRED and no longer in the table |
| AgreementLimits.TornClaimLoses | src/pairing/pairing_coordinator.cpp:179-184 | A run with distinct ids, one of them 0, a power failure between the two writes of a claim and a later reboot, ending with a PAIRED device that is not in the table |
| AgreementLimits.UnpairingLoses | src/pairing/pairing_coordinator.cpp:125-146 | A run in which unpairAll leaves a PAIRED device unknown |
| AgreementLimits.BeaconLoses | src/pairing/pairing_client.cpp:169-183 | A run in which a second beacon pairs a device that is not in the table |
| AgreementLimits.BeaconReadsAsConfirm | src/pairing/pairing_beacon.h:31-33 | A client in RESPONDING takes a beacon for a confirmation, and is then PAIRED, on channel 0, if and only if the beacon's channel is nonzero |
| AgreementLimits.TwoBeaconsPair | src/pairing/pairing_client.cpp:169-183 | Two copies of one beacon pair a scanning client, loadable from flash, without any confirmation |
| AgreementLimits.RequestSlots | src/pairing/pairing_coordinator.cpp:177-217 | The table after one request, case by case on a two-slot table |
| CoordinatorTraffic.AnswersOnlyTheTable | src/pairing/pairing_coordinator.cpp:230-249 | A reconnect frame adds one ack and registers its sender if and only if some active slot holds the sender; otherwise the whole coordinator is unchanged |
| CoordinatorTraffic.AcksOnlyToTheTable | src/pairing/pairing_coordinator.cpp:230-249 | In every run every ack went to an address that sent a reconnect frame and was in the table when it did |
| CoordinatorTraffic.StepSends | src/pairing/pairing_coordinator.cpp:58-93 | Exactly what each call transmits: one beacon if and only if it is a poll, pairing is enabled and the interval has passed; one ack to a known prober; one truthful confirmation per request; nothing else |
| CoordinatorTraffic.BroadcastsExactly | src/pairing/pairing_coordinator.cpp:45-67 | In every run from a fresh coordinator the broadcast frames are exactly the beacons of the due polls between an enablePairing and the next disablePairing or restart |
| CoordinatorTraffic.EnabledIsOpen | src/pairing/pairing_coordinator.cpp:45-52 | pairingEnabled_ is set exactly when pairing was enabled and neither disabled nor restarted since |
| CoordinatorTraffic.SilentUntilEnabled | src/pairing/pairing_coordinator.cpp:58-61 | No beacon goes out before the first enablePairing |
| CoordinatorTraffic.RequestPeers | src/pairing/pairing_coordinator.cpp:195-209 | After a request the sender is a peer, an evicted client is none any more, and no other peer changes |
| CoordinatorTraffic.UnpairPeers | src/pairing/pairing_coordinator.cpp:125-131 | After unpairAll exactly the peers that were not clients in the table are left |
| Reconnect.RecoversEndToEnd | src/connection/connection_manager.cpp:110-170 | Worst case across manager, provider, client and coordinator: last heard at T, coordinator on list position p, polls at most D apart, no clock wrap while probes are sent: connected and tuned to its channel again by T + H + G + (P-1) I + (P+2) D + D + p (J + D) |
| Reconnect.RecoversFrom | src/connection/connection_manager.cpp:110-170 | The same from any stage before broad reacquisition, against its escalation deadline |
| Boot.PowerCycleRecovers | src/connection/connection_manager.cpp:21-34 | Whatever run left the device paired: power-cycled at T over its flash, with its coordinator on list position p, it is connected and tuned to it by T + G + (P-1) I + (P+1) D + D + p (J + D) |
| Boot.RecoversAfterBoot | src/connection/connection_manager.cpp:118-170 | The same from begin with a pairing |
| Boot.EscalatesAfterBoot | src/connection/connection_manager.cpp:118-152 | From begin with a pairing at T: REACQUIRING_DYNAMIC by T + G + (P-1) I + (P+1) D, and not before T + G |
| Boot.BootFollowsFlash | src/connection/connection_manager.cpp:21-34 | begin after a load enters PAIRED_DEGRADED if and only if the flash is loadable, with stored address, peer and radio intact, and else UNPAIRED_DISCOVERY, scanning from the first position |
| Boot.BootAfterRun | src/pairing/pairing_client.cpp:32-94 | After any run that left the device paired a restart brings it to PAIRED_DEGRADED with the same coordinator as peer |
| Boot.DiscoveryConnects | src/connection/connection_manager.cpp:100-108 | In discovery a poll drives the client as its own loop does, and connects if and only if it finds the client PAIRED |
| Boot.DiscoveryGoesOn | src/connection/connection_manager.cpp:100-108 | Until then any number of polls stays in discovery with the client where its own polls take it |
| Reconnect.ReconnectsInTime | src/connection/espnow_session_provider.cpp:46-62 | From escalation: connected again within D + p (J + D) |
| Reconnect.ReconnectsAnytime | src/connection/espnow_session_provider.cpp:46-62 | From any point of an unbounded rotation, whatever the counter: once the coordinator stands on a list position, connected again within (N + 256 mod N)(J + D) + D |
| Reconnect.NextProbe | src/connection/espnow_session_provider.cpp:53-61 | A due poll sends one probe, on the channel the wrapping counter stands at |
| Reconnect.ProbeOnChannelReconnects | src/pairing/pairing_coordinator.cpp:230-249 | At any point of a rotation, a probe of a known device to its coordinator on the coordinator's channel reconnects it at once; on any other channel the coordinator is untouched |
| Reconnect.AckReconnects | src/connection/espnow_session_provider.cpp:74-86 | A consumed ack handled at once leaves the device connected, tuned to, paired on and persisting the acknowledged channel, with its coordinator as peer |
| Reconnect.QuietExchange | src/connection/connection_manager.cpp:110-152 | Before escalation a poll transmits nothing to the coordinator |
| RecoveryTime.EscalatesInTime | src/connection/connection_manager.cpp:110-152 | Under DYNAMIC policy, gap D, no wrap from the first probe on: REACQUIRING_DYNAMIC by T + H + G + (P-1) I + (P+2) D with P = max(1, staticMaxProbes) |
| RecoveryTime.SweepsInTime | src/connection/connection_manager.cpp:154-170 | All N channels probed within a further (N-1) J + N D |
| RecoveryTime.RecoversInTime | src/connection/espnow_session_provider.cpp:46-62 | Both together: by the sum of the two bounds a probe to the coordinator has gone out on every channel of the list |
| RecoveryTime.PollKeepsTime | src/connection/connection_manager.cpp:110-152 | No poll moves the escalation deadline later, and an escalating poll happens before it |
| RecoveryTime.EscalatesFrom | src/connection/connection_manager.cpp:110-152 | From any stage before broad reacquisition a device polled past its deadline has escalated by then |
| RecoveryTime.SweepPoll | src/connection/connection_manager.cpp:159-162 | In true time: a poll of broad reacquisition probes exactly when the next probe is due, as long as no wrap intervenes |
| Coverage.EveryWindowCovers | src/connection/espnow_session_provider.cpp:53-60 | For every list length N in 1..255 and any counter position, N + (256 mod N) consecutive values of the wrapping counter select every list position |
| Coverage.WindowIsTight | src/connection/espnow_session_provider.cpp:53-60 | One value fewer does not: a window that misses the last position |
| Coverage.RotationSends | src/connection/espnow_session_provider.cpp:46-62 | m iterations send exactly m probes, the k-th on the position the counter stood at, to the coordinator as a registered peer |
| Coverage.ProbesOnlyInRotation | src/connection/espnow_session_provider.cpp:46-49 | A provider that is not reacquiring or not paired sends no probe, however often it is driven, and stays as it is; else one per iteration |
| Coverage.FairRotation | src/connection/espnow_session_provider.cpp:46-62 | Anywhere in an unbounded rotation the next N + (256 mod N) probes include one on every channel |
| Coverage.FirstSweep | src/connection/espnow_session_provider.cpp:40-62 | The first N probes after startReacquisition visit the list in order |
| Handshake.PairsWithinOneSweep | src/pairing/pairing_client.cpp:135-145 | Discovery end to end, request and confirmation each taking its time: with the table accepting, a client that starts scanning while the coordinator beacons is PAIRED within one sweep and one dwell, on the coordinator's channel and in its table if and only if the confirmation arrives before the coordinator's next beacon is due, and else on channel 0 |
| Handshake.PairsFromAnywhere | src/pairing/pairing_client.cpp:224-240 | The same for a client in the middle of any later sweep: within the dwells from its position round to the coordinator's, around the end of the list if need be |
| Handshake.PairsInTime | src/pairing/pairing_client.cpp:135-157 | Both at once: for a scan that is r dwells from the coordinator's position |
| Handshake.HandshakeEnds | src/pairing/pairing_client.cpp:169-183 | Less than a dwell after the answered beacon the client is PAIRED; the exact condition for the right channel, and for being in the table, in terms of the arrival times |
| Handshake.FateIs | src/pairing/pairing_client.cpp:169-183 | Which of confirmation and beacon comes first, read off the schedule alone |
| Handshake.FateComesTrue | src/pairing/pairing_client.cpp:159-186 | After any continuation the two machines are where the schedule says |
| Handshake.BeaconOvertakes | src/pairing/pairing_beacon.h:72-74 | Two failing runs: the next beacon before the request arrives leaves a PAIRED client nobody knows; before the confirmation arrives, a client PAIRED on channel 0 that the table knows |
| Handshake.RequestAndConfirm | src/pairing/pairing_coordinator.cpp:159-175 | Request and confirmation delivered undisturbed: the client is PAIRED on the coordinator's channel if and only if the table took it, and scans again otherwise |
| Rendezvous.MeetsWithinOneSweep | src/pairing/pairing_client.cpp:224-240 | The client leaves SCANNING, having answered a beacon, before D + k (dwell + D) + dwell, and with a further D for the start and for each of the k dwells if polls may read the clock as 0 |
| Rendezvous.MeetsFromAnywhere | src/pairing/pairing_client.cpp:224-240 | A client anywhere in an unbounded scan has answered a beacon within the dwells round to the coordinator's position and one more |
| Rendezvous.MeetsInTime | src/pairing/pairing_client.cpp:135-145 | Both at once: for a scan that is r dwells from the coordinator's position |
| Rendezvous.BeaconGapBelowDwell | src/pairing/pairing_coordinator.cpp:58-67 | Polled at least every 100 ms, beacons are less than one 200 ms dwell apart, also across clock wrap |
| Rendezvous.CoordStep | src/pairing/pairing_coordinator.cpp:58-67 | A coordinator poll beacons if and only if the interval has passed since the last beacon in true time, and the client gets it if and only if it is on the channel |
| Rendezvous.DwellTick | src/pairing/pairing_client.cpp:135-145 | A client poll stays, or moves on from a position that does not end the search |
| Rendezvous.StaysUntouched | src/pairing/pairing_coordinator.cpp:58-67 | Searching changes neither the table nor the device |
| Rendezvous.StaysForBeacon | src/pairing/pairing_client.cpp:135-145 | A client at the end of its search does not leave the beacon channel by itself before a beacon |
| Rendezvous.SearchTick | src/pairing/pairing_client.cpp:135-145 | Every tick of either machine keeps the search in time or ends it with an answered beacon |
| NoStuckClient.TunesEveryChannel | src/pairing/pairing_client.cpp:135-157 | Silence after entering RESPONDING: every one of the N positions tuned again within PAIRING_TIMEOUT_MS + 2 D + (N-1)(dwell + D) |
| NoStuckClient.DwellIsExact | src/pairing/pairing_client.cpp:138-143 | A dwell ends at exactly the first poll at least 200 ms of true time after its start, across clock wrap |
| NoStuckClient.UnstartedDwellStarts | src/pairing/pairing_client.cpp:138-140 | A dwell start that reads as 0 is latched by the next poll |
| NoStuckClient.WaitingPoll | src/pairing/pairing_client.cpp:146-152 | A poll in RESPONDING keeps waiting until the timeout and then scans from the first position |
| NoStuckClient.DwellingPoll | src/pairing/pairing_client.cpp:135-145 | A poll in SCANNING keeps the dwell or moves to the next position in time |
| NoStuckClient.AdvanceMovesOn | src/pairing/pairing_client.cpp:224-240 | advanceChannel moves to the next position, from the last to the first, tunes it and restarts the dwell |
| NoStuckClient.ScanGoesAround | src/pairing/pairing_client.cpp:224-240 | However long it is polled, a scanning client stands as many positions on, around the list, as dwells have ended |
| NoStuckClient.FullCycle | src/pairing/pairing_client.cpp:224-240 | From any position, within N ended dwells every position is tuned, and after exactly N the same one again |
| NodeRuns.AlwaysInStep | src/connection/connection_manager.cpp:75-98 | In every disciplined run connected_ holds exactly in PAIRED_CONNECTED, reacquiring_ exactly in REACQUIRING_DYNAMIC, and reacquisitionDone_ implies reacquiring_; so the connected_ rechecks at 119, 134 and 155 are dead |
| NodeRuns.StepKeepsInStep | src/connection/connection_manager.cpp:36-98 | and every single call keeps that |
| NodeRuns.ReconnectNeedsAck | src/connection/connection_manager.cpp:154-170 | A step from REACQUIRING_DYNAMIC to PAIRED_CONNECTED has an ack consumed since the startReacquisition that opened the stay |
| NodeRuns.DoneMeansAcked | src/connection/espnow_session_provider.cpp:74-86 | reacquisitionDone_ set means an onReconnectAck in the current stay |
| NodeRuns.RotationRests | src/connection/espnow_session_provider.cpp:68-72 | In every run the rotation counter is 0 outside broad reacquisition |
| NodeRuns.RadioAgrees | src/connection/connection_manager.cpp:75-80 | In every run with acks handled at once and genuine channels: PAIRED and not REACQUIRING_DYNAMIC implies radio channel = pairedChannel_ in 1..13 |
| NodeRuns.StepKeepsTuned | src/pairing/pairing_client.cpp:71-91 | and every single call keeps that |
| NodeRuns.BootIsTuned | src/pairing/pairing_client.cpp:14-30 | A fresh device satisfies the invariants whatever its flash holds |
| NodeRuns.PolledAckMayDetune | src/connection/connection_manager.cpp:161-169 | On the polling path the device reconnects on its paired channel if and only if the rotation stood at it |
| NodeRuns.PolledAckDetunes | src/connection/connection_manager.cpp:161-169 | A concrete run in which it does not: paired on 6, listening on 1 |
| NodeRuns.StepSends | src/pairing/pairing_client.cpp:242-250 | A call sends nothing or one own request or probe, to the coordinator, registered at that moment |
| NodeRuns.SendsExactly | src/connection/connection_manager.cpp:154-162 | Exactly what each call transmits: one probe if and only if it is a due poll of broad reacquisition, one request if and only if it is a coordinator frame heard while scanning, nothing else |
| NodeRuns.OnlyToPeers | src/connection/espnow_session_provider.cpp:88-97 | In every run every frame a device sends goes to a registered peer |
| Persistence.AlwaysPersisted | src/pairing/pairing_client.cpp:262-290 | In every run with nonzero sources PAIRED implies flag 1, flash address = coordinatorMac_, and flash channel = pairedChannel_ unless the last load fell back |
| Persistence.ReloadRestores | src/pairing/pairing_client.cpp:32-94 | A restart with the same scan list restores the identity and peer; the channel if and only if it is in 1..13 and in the list or is its first entry (in 1..13 without a list), and after a load that fell back if and only if the stored number leads to the same choice |
| Persistence.LoadsExactly | src/pairing/pairing_client.cpp:37-74 | A load restores a pairing if and only if the flag is stored as 1 and the address is six bytes, not all zero; else it changes nothing |
| Persistence.LoadedChannel | src/pairing/pairing_client.cpp:49-91 | With a scan list the restored channel is one of its entries: the stored one if in 1..13 and in the list, else the first; without one the stored one if in 1..13, else 1; the radio is tuned to it and the coordinator is a peer |
| Persistence.ScanningForgets | src/pairing/pairing_client.cpp:101-115 | startScanning clears pairing and timers in RAM and leaves flash, peers and outbox alone |
| Persistence.StoppingStops | src/pairing/pairing_client.cpp:117-121 | A stopped client ignores polls and frames; one that was not scanning is unchanged |
| Persistence.ClearedIsGone | src/pairing/pairing_client.cpp:212-222 | After clearPairing nothing of the pairing is left in RAM, on flash or to a reload |
| Persistence.LoadReportsState | src/pairing/pairing_client.cpp:32-94 | The returned StoredPairing describes the state the load left: valid if and only if flash was loadable, same address and channel |
| Persistence.UnusableResult | src/pairing/pairing_client.cpp:35-69 | An invalid result is empty, except that once the flag was found set it carries the address, if six bytes, and the channel number that were read |
| Persistence.StepWrites | src/pairing/pairing_client.cpp:200-222 | The exact flash writes of every call, in order |
| Persistence.TornClear | src/pairing/pairing_client.cpp:212-222 | clearPairing cut anywhere leaves the old pairing or none |
| Persistence.TornFirstStore | src/pairing/pairing_client.cpp:284-290 | A first storePairing cut anywhere is loadable if and only if complete or the flag key was still set, and then with the new address; it mixes in the old channel if and only if exactly one write was made over a set flag and another channel |
| Persistence.TornTwice | src/pairing/pairing_client.cpp:212-222 | How the flag can still be set: an interrupted clear followed by an interrupted store reloads the new address with the old channel |
| Persistence.TornRepair | src/pairing/pairing_client.cpp:284-290 | A re-pairing cut anywhere has a wholly old or wholly new address, the channel lagging by exactly one write |
| Persistence.TornIdentity | src/pairing/pairing_client.cpp:32-69 | Whatever call is cut wherever, a reload gives the identity stored before or the sender of the confirmation being handled |
| Persistence.NodeStepOnClient | src/connection/connection_manager.cpp:21-80 | The manager's calls never write flash, never make the client PAIRED and never change its identity or paired channel while PAIRED |
| CoordinatorTable.AlwaysOk | src/pairing/pairing_coordinator.cpp:177-228 | In every run active addresses are pairwise distinct, equal slot by slot to the persisted ones, registered as peers, and every frame went to a registered destination |
| CoordinatorTable.StepOk | src/pairing/pairing_coordinator.cpp:69-93 | and every single call keeps that, a same-id eviction included |
| CoordinatorTable.RebootLosesNobody | src/pairing/pairing_coordinator.cpp:23-43 | A reboot plus loadPairedClients preserves isPaired for every address and restores each id as of the slot's last claim |
| CoordinatorTable.FlashIdIsLastClaimed | src/pairing/pairing_coordinator.cpp:215-223 | The id on flash is the one given at the slot's last claim, since later updates touch RAM only |
| CoordinatorTable.BootFromSameMacs | src/pairing/pairing_coordinator.cpp:23-43 | The table that comes up depends on the stored addresses only |
| CoordinatorTable.BootOk | src/pairing/pairing_coordinator.cpp:23-43 | Loading flash with distinct addresses establishes the invariant, ids as last written |
| CoordinatorTable.LoadsExactly | src/pairing/pairing_coordinator.cpp:23-43 | Loading over any table from any flash: a six-byte address not all zero makes the slot active with it and the stored id (0 if none), an all-zero one only blanks the address, anything else leaves the slot alone |
| CoordinatorTable.ReloadSlots | src/pairing/pairing_coordinator.cpp:23-43 | Loading again at run time changes at most the ids |
| CoordinatorTable.RequestEffect | src/pairing/pairing_coordinator.cpp:159-209 | One request: the confirmation tells the truth about the table it is sent from, nobody but the evicted address is forgotten, and it is refused if and only if the sender is new, all slots are taken and none has its id |
| CoordinatorTable.RequestOk | src/pairing/pairing_coordinator.cpp:159-175 | A request from any nonzero address keeps the invariant |
| CoordinatorTable.UnpairOk | src/pairing/pairing_coordinator.cpp:125-146 | unpairAll leaves a well-formed table with nobody in it and no id on flash |
| CoordinatorTable.ClaimIsTwoWrites | src/pairing/pairing_coordinator.cpp:215-225 | A request writes flash exactly when it claims a slot: address, then id |
| CoordinatorTable.TornRequest | src/pairing/pairing_coordinator.cpp:211-225 | A request cut anywhere comes up with the addresses from before or after it; only the id can be missing |
| CoordinatorTable.TornUnpairAll | src/pairing/pairing_coordinator.cpp:125-146 | An unpairAll cut anywhere comes up with a well-formed table of some of the clients that were in it |
| ClockWrap.PollRightIff | src/connection/connection_manager.cpp:138-138 | A poll while probing acts exactly when the probe is due in true time, if and only if no clock wrap lies between poll and deadline |
| ClockWrap.RightIffSameEpoch | src/connection/connection_manager.cpp:138-138 | For times less than 2^32 apart the plain comparison is right if and only if they are in the same clock epoch |
| ClockWrap.ActsIffReadingDue | src/connection/connection_manager.cpp:133-170 | A poll while probing leaves the device as it is if and only if it reads less than the deadline |
| ClockWrap.StallsForAnEpoch | src/connection/connection_manager.cpp:159-162 | A failing run: a deadline that reads 2^32 - 1 and is not polled in that millisecond; no probe follows for 2^32 - 1 ms, however often the device is polled |
| ClockWrap.Bursts | src/connection/connection_manager.cpp:159-162 | The other failing run: within the last interval before a wrap every poll sends a probe, however close the polls are |
| ClockWrap.BurstSends | src/connection/connection_manager.cpp:159-162 | and each of them is transmitted |
| Connectivity.TruthfulExactly | src/connection/connection_manager.cpp:110-116 | For a positive timeout: isConnected() is truthful after every poll of every run with polls at most a gap apart if and only if gap + timeout is below 2^32 |
| Connectivity.ConnectedMeansHeard | src/connection/connection_manager.cpp:110-116 | After any poll of any run isConnected() implies an accepted contact within the last heartbeatTimeoutMs of true time, across clock wrap, for nonzero contact readings and poll gap + timeout below 2^32 |
| Connectivity.AttendedStaysConnected | src/connection/connection_manager.cpp:58-92 | Conversely, if every poll finds the last contact at most the timeout old, the manager never leaves PAIRED_CONNECTED |
| Connectivity.PollVerdict | src/connection/connection_manager.cpp:110-116 | One poll: connected if and only if the silence modulo 2^32 is within the timeout, which is the true verdict if and only if the silence has not aliased |
| Connectivity.AliasedSilence | src/connection/connection_manager.cpp:110-116 | A run for every gap with gap + timeout at least 2^32: polls at most the gap apart, still connected 2^32 ms after the last contact |
| Connectivity.ZeroReadingNeverExpires | src/connection/connection_manager.cpp:111-111 | A contact at reading 0 is never given up, whatever silence follows |
| Connectivity.StepHears | src/connection/connection_manager.cpp:84-92 | Only an accepted contact sets connected_ or moves lastHeardMs_ |
| Connectivity.ContactConnects | src/connection/connection_manager.cpp:58-92 | A contact connects a paired device in every state but broad reacquisition, taking the time and leaving the provider at rest, and nothing else; otherwise it changes nothing |
| Connectivity.ContactReconnects | src/connection/connection_manager.cpp:58-92 | In every disciplined run a paired device is connected right after a contact if and only if it was not in broad reacquisition, and stays connected while it is heard often enough |
| Escalation.EscalatesAfterAllProbes | src/connection/connection_manager.cpp:133-152 | Under DYNAMIC policy escalation happens on exactly the poll that sends probe number max(1, staticMaxProbes) of the stay |
| Escalation.CountIsExact | src/connection/connection_manager.cpp:94-98 | probeCount_ is the number of probes of the current stay and stays below the limit, so it never wraps |
| Escalation.ProbesAreSpaced | src/connection/connection_manager.cpp:138-142 | Successive probes of a stay are at least staticProbeIntervalMs apart if and only if the later one is not in an earlier clock epoch than its deadline |
| Escalation.CallbackPerProbe | src/connection/espnow_session_provider.cpp:32-38 | A probing poll calls the application callback once with the coordinator address, then a peer, on the unchanged channel; no other call does |
| Escalation.StaticNeverEscalates | src/connection/connection_manager.cpp:144-145 | Under STATIC policy REACQUIRING_DYNAMIC is unreachable by any calls in any order |
| Escalation.CountWrapsUnderStatic | src/connection/connection_manager.cpp:141-142 | Meanwhile probeCount_ is the number of probes of the stay modulo 256 |
| Escalation.BootGraceIsNeverSeen | src/connection/connection_manager.cpp:26-28 | Two devices that differ only in bootGracePeriodMs behave alike in every run: line 130 overwrites the deadline before it is read |
| Misdelivery.ClientReactsOnlyToCoordinator | src/pairing/pairing_client.cpp:159-186 | A client changes state if and only if it is SCANNING or RESPONDING and the buffer comes from a coordinator; requests and reconnect frames never touch it |
| Misdelivery.ClientIgnoresClients | src/pairing/pairing_beacon.h:43-53 | No client is moved by a request, probe or ack |
| Misdelivery.CoordinatorIgnoresCoordinators | src/pairing/pairing_coordinator.cpp:69-93 | No coordinator is moved by a beacon, a confirmation or any coordinator buffer |
| Misdelivery.AckReadsAsProbe | src/connection/reconnect_messages.h:29-51 | An ack delivered to a coordinator is answered like a probe |
| WsClients.BroadcastIsFilter | src/http/http_server.cpp:377-399 | A broadcast leaves exactly the clients whose send succeeded, in their original order, each at most once |
| WsClients.SurvivorsAreFilter | src/http/http_server.cpp:388-397 | The loop's result is the plain order-preserving filter |
| WsClients.BackwardsReverses | src/http/http_server.cpp:388-397 | The order of attempts is the reverse of the array, every client exactly once |
| WsClients.AttemptsAreBackwards | src/http/http_server.cpp:388-397 | The frames handed out are one per client in that order |
| WsClients.AlwaysDistinct | src/http/http_server.cpp:236-260 | After any connects, disconnects, broadcasts and stops: at most four clients, no descriptor twice |
| WsClients.ConnectAppends | src/http/http_server.cpp:236-246 | A new descriptor below four is appended last; a known one, or one beyond four, changes nothing |
| WsClients.StopForgets | src/http/http_server.cpp:298-306 | In any sequence of operations, what came before a stop has no influence on the clients after it |
| WsClients.DisconnectKeepsDistinct | src/http/http_server.cpp:248-260 | Disconnecting removes exactly that descriptor |
| WsClients.HttpServer.constructor | src/http/http_server.h:129-131 | No clients, not running |
| WsClients.HttpServer.WsConnect | src/http/http_server.cpp:236-246 | Appends a new descriptor unless full or already there |
| WsClients.HttpServer.WsDisconnect | src/http/http_server.cpp:248-260 | Removes the first occurrence in place |
| WsClients.HttpServer.RemoveAt | src/http/http_server.cpp:251-254 | The shift loop drops exactly index idx |
| WsClients.HttpServer.WsBroadcast | src/http/http_server.cpp:377-399 | On a running server the text frame goes to every client exactly once, last first, although the array shrinks meanwhile; the reached ones remain and their number is returned |
| WsClients.HttpServer.WsPing | src/http/http_server.cpp:401-423 | The same with ping frames |
| WsClients.HttpServer.SendToAll | src/http/http_server.cpp:388-398 | The loop itself: array, attempts and count after it |
| WsClients.HttpServer.TrySend | src/http/http_server.cpp:389-396 | One turn: a failing client is removed, the ones below and the survivors above are untouched |
| WsClients.HttpServer.Stop | src/http/http_server.cpp:298-306 | Stopping a running server forgets all clients |
| QueryParser.ParsesBack | src/http/http_server.cpp:52-102 | Any list of printable pairs, printed and parsed: nothing if the text is longer than 255 characters, else its first 10 pairs cut to 23 and 47 characters, and lookup by name gives the first match or the empty string |
| QueryString.RoundTrip | src/http/http_server.cpp:78-102 | Any list of printable pairs printed as a query string is parsed back to its first 10 pairs cut to 23 and 47 characters, so to itself when it fits |
| QueryString.PairIsPrefixes | src/http/http_server.cpp:92-97 | A stored name is the first 23 characters at most of what stands before the first equals sign, a value the first 47 at most of what follows |
| QueryString.TokensAreFiltered | src/http/http_server.cpp:90-101 | Taking tokens one at a time equals splitting at every separator, keeping the segments with an equals sign, and taking the first ones |
| QueryString.PrintSplits | src/http/http_server.cpp:89-98 | Splitting a printed list gives back its pairs, as far as each fits |
| QueryParser.HttpRequest.ParseQueryParams | src/http/http_server.cpp:78-102 | The in-place parser yields exactly the reference parameters of the text, or none when it does not fit 256 bytes |
| QueryParser.HttpRequest.Tokenize | src/http/http_server.cpp:89-101 | The token loop stores exactly the tokens' pairs |
| QueryParser.HttpRequest.Advance | src/http/http_server.cpp:91-101 | Each turn conserves what is stored plus what the remaining text would still yield |
| QueryParser.HttpRequest.StoreToken | src/http/http_server.cpp:92-99 | A token with an equals sign is stored split at the first one, any other is skipped |
| QueryParser.HttpRequest.Append | src/http/http_server.cpp:95-98 | strncpy into the next slot truncates to 23 and 47 characters and keeps it NUL-terminated |
| QueryParser.HttpRequest.HasParam | src/http/http_server.cpp:52-58 | True if and only if some stored name matches |
| QueryParser.HttpRequest.Param | src/http/http_server.cpp:60-66 | The value of the first match, or the empty string |
| QueryParser.HttpRequest.constructor | src/http/http_server.cpp:78-79 | No parameters, all slots NUL-terminated |
| QueryParser.LookupFirst | src/http/http_server.cpp:60-66 | Lookup returns the first matching value |
| QueryParser.LookupMissing | src/http/http_server.cpp:60-66 | and the empty string when no name matches |
| QueryParser.StrTok | src/http/http_server.cpp:89-100 | strtok_r over the buffer: skips separators, cuts the next token in place, leaves the cursor at the rest |
| QueryParser.CutToken | src/http/http_server.cpp:89-100 | The token ends at its separator, overwritten by NUL, and the rest of the text survives behind it |
| QueryParser.StrNCpyTruncates | src/http/http_server.cpp:95-97 | strncpy of size minus one into a NUL-ended slot stores the truncated source |
| QueryParser.SplitInPlace | src/http/http_server.cpp:92-97 | Writing NUL over the equals sign leaves name and value as two strings and the rest of the buffer readable |
| Wire.InitBeacon | src/pairing/pairing_beacon.h:23-29 | The eight bytes of a beacon |
| Wire.InitRequest | src/pairing/pairing_beacon.h:43-49 | The eight bytes of a request |
| Wire.InitConfirm | src/pairing/pairing_beacon.h:64-70 | The eight bytes of a confirmation |
| Wire.InitProbe | src/connection/reconnect_messages.h:21-27 | The eight bytes of a probe |
| Wire.InitAck | src/connection/reconnect_messages.h:41-47 | The eight bytes of an ack |
| Wire.FramesRoundTrip | src/pairing/pairing_beacon.h:17-75 | Every frame validates as its kind and decodes to the fields it was built from |
| Wire.KindsAreDisjoint | src/pairing/pairing_beacon.h:31-53 | Role and magic separate coordinator frames, client requests and reconnect frames |
| Wire.ElapsedIsTrueTime | src/pairing/pairing_client.cpp:141-148 | Unsigned subtraction of two clock readings is the true distance modulo 2^32 |
| Device.Transport.SetChannel | src/comm/esp_now_transport.cpp:93-104 | Accepts 1..13 and otherwise leaves the radio alone |
| Device.Transport.AddPeer | src/comm/esp_now_transport.cpp:113-143 | Registers the peer |
| Device.Transport.RemovePeer | src/comm/esp_now_transport.cpp:145-159 | Removes the peer, if there |
| Device.Transport.Send | src/comm/esp_now_transport.cpp:69-79 | Transmits on the current channel |
| ClientSide.PairingClient.constructor | src/pairing/pairing_client.cpp:14-30 | Fresh IDLE client |
| ClientSide.PairingClient.LoadStoredPairing | src/pairing/pairing_client.cpp:32-94 | Restores the pairing from flash with the channel fallback; the scan-list search decides membership |
| ClientSide.PairingClient.SetScanChannels | src/pairing/pairing_client.cpp:96-99 | Replaces the list, nothing else |
| ClientSide.PairingClient.StartScanning | src/pairing/pairing_client.cpp:101-115 | Scans from the first channel with all pairing state cleared |
| ClientSide.PairingClient.StopScanning | src/pairing/pairing_client.cpp:117-121 | SCANNING becomes IDLE, any other state stays |
| ClientSide.PairingClient.Loop | src/pairing/pairing_client.cpp:135-157 | Dwell and timeout handling on the wrapping clock |
| ClientSide.PairingClient.HandleReceived | src/pairing/pairing_client.cpp:159-186 | Dispatch on length, magic, state and role; the result says whether the buffer was consumed |
| ClientSide.PairingClient.SetPairedChannel | src/pairing/pairing_client.cpp:200-210 | Channel in RAM and on flash, or nothing for an invalid one |
| ClientSide.PairingClient.ClearPairing | src/pairing/pairing_client.cpp:212-222 | Three removals in order, then RAM |
| ClientSide.PairingClient.AdvanceChannel | src/pairing/pairing_client.cpp:224-240 | Next list entry or next of 1..13, with wrap |
| ClientSide.PairingClient.SendPairingRequest | src/pairing/pairing_client.cpp:242-250 | Registers the coordinator and sends it a request |
| ClientSide.PairingClient.HandleBeacon | src/pairing/pairing_client.cpp:252-260 | Enters RESPONDING and answers |
| ClientSide.PairingClient.HandleConfirm | src/pairing/pairing_client.cpp:262-282 | Pairs, tunes and persists, or scans again |
| ClientSide.PairingClient.StorePairing | src/pairing/pairing_client.cpp:284-290 | Address, channel, flag, in this order |
| CoordinatorSide.PairingCoordinator.constructor | src/pairing/pairing_coordinator.cpp:14-21 | Empty table, not pairing |
| CoordinatorSide.PairingCoordinator.LoadPairedClients | src/pairing/pairing_coordinator.cpp:23-43 | Slot by slot from flash, registering peers |
| CoordinatorSide.PairingCoordinator.EnablePairing | src/pairing/pairing_coordinator.cpp:45-48 | Starts beaconing afresh |
| CoordinatorSide.PairingCoordinator.DisablePairing | src/pairing/pairing_coordinator.cpp:50-52 | Stops beaconing |
| CoordinatorSide.PairingCoordinator.Loop | src/pairing/pairing_coordinator.cpp:58-67 | A beacon when pairing and 100 ms have elapsed |
| CoordinatorSide.PairingCoordinator.HandleReceived | src/pairing/pairing_coordinator.cpp:69-93 | Reconnect magic first, then pairing requests, whether or not pairing is enabled |
| CoordinatorSide.PairingCoordinator.IsPaired | src/pairing/pairing_coordinator.cpp:107-114 | True if and only if some active slot holds the address |
| CoordinatorSide.PairingCoordinator.PairedClientCount | src/pairing/pairing_coordinator.cpp:116-123 | The number of active slots |
| CoordinatorSide.PairingCoordinator.UnpairAll | src/pairing/pairing_coordinator.cpp:125-146 | Peers removed, present keys removed, slots emptied |
| CoordinatorSide.PairingCoordinator.BroadcastBeacon | src/pairing/pairing_coordinator.cpp:148-157 | A beacon with the current channel to the registered broadcast peer |
| CoordinatorSide.PairingCoordinator.HandlePairingRequest | src/pairing/pairing_coordinator.cpp:159-175 | Stores, then confirms with the outcome |
| CoordinatorSide.PairingCoordinator.StorePairedClient | src/pairing/pairing_coordinator.cpp:177-228 | Known address, else first free slot, else first slot with the id, else refusal; evicted peer removed, claim persisted |
| CoordinatorSide.PairingCoordinator.HandleReconnectProbe | src/pairing/pairing_coordinator.cpp:230-249 | Ack with the current channel to a known address, silence to others |
| CoordinatorSide.SlotOfMac | src/pairing/pairing_coordinator.cpp:179-184 | The first active slot with the address |
| CoordinatorSide.FreeSlot | src/pairing/pairing_coordinator.cpp:187-193 | The first inactive slot |
| CoordinatorSide.SlotOfDevice | src/pairing/pairing_coordinator.cpp:196-204 | The first active slot with the id |
| SessionSide.EspNowSessionProvider.constructor | src/connection/espnow_session_provider.h:52-57 | Not reacquiring, counter 0 |
| SessionSide.EspNowSessionProvider.HasPairing | src/connection/espnow_session_provider.cpp:16-30 | PAIRED or not; also isDiscoveryComplete |
| SessionSide.EspNowSessionProvider.StartDiscovery | src/connection/espnow_session_provider.cpp:20-22 | Client scans |
| SessionSide.EspNowSessionProvider.LoopDiscovery | src/connection/espnow_session_provider.cpp:24-26 | Client loops |
| SessionSide.EspNowSessionProvider.SendProbe | src/connection/espnow_session_provider.cpp:32-38 | Registers the coordinator and calls the callback, if PAIRED and set |
| SessionSide.EspNowSessionProvider.StartReacquisition | src/connection/espnow_session_provider.cpp:40-44 | Rotation from the start |
| SessionSide.EspNowSessionProvider.LoopReacquisition | src/connection/espnow_session_provider.cpp:46-62 | One probe on the counter's channel; result says whether one was sent |
| SessionSide.EspNowSessionProvider.IsReacquisitionComplete | src/connection/espnow_session_provider.cpp:64-66 | Whether an ack was consumed |
| SessionSide.EspNowSessionProvider.ResetReacquisition | src/connection/espnow_session_provider.cpp:68-72 | Ends reacquisition |
| SessionSide.EspNowSessionProvider.OnReconnectAck | src/connection/espnow_session_provider.cpp:74-86 | While reacquiring: tune, set the paired channel, register the peer, mark done |
| SessionSide.EspNowSessionProvider.SendReconnectProbeOnChannel | src/connection/espnow_session_provider.cpp:88-97 | Tune, register, send a probe |
| ManagerSide.ConnectionManager.constructor | src/connection/connection_manager.cpp:10-19 | Fresh manager |
| ManagerSide.ConnectionManager.Begin | src/connection/connection_manager.cpp:21-34 | PAIRED_DEGRADED with a pairing, else discovery |
| ManagerSide.ConnectionManager.Loop | src/connection/connection_manager.cpp:36-56 | Dispatch on the state, nothing before begin |
| ManagerSide.ConnectionManager.OnHeartbeatReceived | src/connection/connection_manager.cpp:58-66 | Contact unless unpaired or in broad reacquisition |
| ManagerSide.ConnectionManager.OnMessageReceived | src/connection/connection_manager.cpp:68-73 | The same |
| ManagerSide.ConnectionManager.OnReacquisitionSuccess | src/connection/connection_manager.cpp:75-80 | Connected, reacquisition reset |
| ManagerSide.ConnectionManager.HandleMessageFromCoordinator | src/connection/connection_manager.cpp:84-92 | Contact time, and connection if there was none |
| ManagerSide.ConnectionManager.TransitionTo | src/connection/connection_manager.cpp:94-98 | State, entry time, probe counter |
| ManagerSide.ConnectionManager.HandleUnpairedDiscovery | src/connection/connection_manager.cpp:100-108 | Drives discovery; connected when it completes |
| ManagerSide.ConnectionManager.HandlePairedConnected | src/connection/connection_manager.cpp:110-116 | Heartbeat supervision |
| ManagerSide.ConnectionManager.HandlePairedDegraded | src/connection/connection_manager.cpp:118-131 | Grace period |
| ManagerSide.ConnectionManager.HandleReacquiringStatic | src/connection/connection_manager.cpp:133-152 | Static probes and escalation |
| ManagerSide.ConnectionManager.HandleReacquiringDynamic | src/connection/connection_manager.cpp:154-170 | Broad probes and completion |

## Left out

- Device.Transport.SetChannel: every channel in 1..13 succeeds, as if `esp_wifi_set_channel` never failed.
- Device.Transport.AddPeer: always succeeds; the limit of the ESP-NOW peer table, the peer's own channel and initialisation are not modelled.
- Device.Transport.RemovePeer: always succeeds; failure results and the uninitialised case are not modelled.
- Device.Transport.Send: argument checks and the outcome are ignored, as in the callers; delivery is decided by the network steps.
- ClientSide.PairingClient.SetScanChannels: the list is a value; a caller that later overwrites the array behind the pointer is not modelled, and a null pointer or a zero count is the empty list.
- ClientSide.PairingClient.LoadStoredPairing: a read of other than six bytes is taken to leave the destination untouched; this also holds for loadPairedClients.
- SessionSide.EspNowSessionProvider.constructor: requires that provider and client share one transport, which is how they are wired.
- SessionSide.EspNowSessionProvider.SendProbe: the application callback is a record of its invocations and does not call back into the machines.
- RecoveryTime.EscalatesInTime: the bounds assume that no clock wrap lies between the polls from the first probe on and the deadlines they set, because the comparison at src/connection/connection_manager.cpp:138 and 159 fails exactly then; `ClockWrap` proves that and gives the failing runs. The same goes for the other bounds in RecoveryTime and Reconnect.
- Handshake.PairsWithinOneSweep: beacons are delivered at once and without loss, and only the last request and the last confirmation are in flight; they may arrive at any time, repeatedly or not at all.
- Reconnect.RecoversEndToEnd: probe and ack are delivered without loss and within the poll that sends the probe.
- QueryParser.HttpRequest.ParseQueryParams: the query is a C string without NUL; reading it into the buffer fails exactly when it does not fit.
- IPreferences: its implementation is not part of this model; single puts and removes are atomic, `begin`, `end` and namespaces do nothing.
- Preemption between the WiFi callback and the main loop: a public call is one step, interrupted only by power failure.
- User callbacks `onPaired` and `onClientPaired`, logging, enum-to-string helpers, and plain getters such as `getPairedClient`.
- HTTP routes, request bodies, path copying and responses; the HTTP client, NTP, WiFi setup and the WiFi configuration checksum; the message header helpers: easy members or foreign code only.
