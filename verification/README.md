# Verification of the camera system's protocol logic

The project models the stateful parts of the ESP32 surveillance system and proves what they promise, over every run:

- **The signaling hub.** One Durable Object per camera (`cloudflare/src/devicehub.ts`) with its device slot, its single viewer
  slot, cached ICE servers, alarm and presence row. `HubModel` is the state machine, one step per exclusive handler;
  its functions `DeviceConnect`, `ViewerConnect`, `Receive`, `Drop` and `Alarm` are `onDeviceConnect`, `onViewerConnect`,
  `webSocketMessage`, `webSocketClose` and `alarm`, and `UpsertOnline`, `SetOffline` and `TouchLastSeen` the row updates of
  `cloudflare/src/db.ts`. `DeviceHubs.DeviceHub` is the object with its fields, each handler proved to take the state
  machine's step. `HubSafety`, `HubRuns` and `HubTheorems` hold what all runs keep; `HubHistory` reads off the events when
  each peer was last heard and proves that idle closes follow exactly; `HubLedger` reads off them what the hub's fields hold
  and what its sockets are told; `HubTiming` and `HubWitness` add alarms on time and the runs at the edge of their windows;
  `HubSplit` splits the viewer connect at its mint.
- **The Go hub it replaces.** `Registry` (the mutex-guarded slots), `GoSlots` (handlers interleaved at their critical
  sections), `GoHub` (the handlers run between reads), `GoSchedules` (those as one of the interleavings), `HubParity` (the
  two hubs compared step by step) and `SocketParity` (compared by what each socket is told over a whole run).
- **The frame format.** `FrameWire` (chunks and reassembly on sequences), `FrameSenders` and `FrameReceivers` (the firmware's
  chunk buffer and the page's reassembly state), `FrameTheorems` (both over refusing, losing and reordering channels).
- **The firmware's connection machine.** `PeerLoop` and `PeerTheorems` (websocket events and peer-loop iterations over shared
  flags and 32-bit time), `Keepalive` and `KeepaliveOnTime` (the ping rule against the hub's alarm, late or on time),
  `LedTask` (the LED's command queue) and `LedMode` (the connection's mode as the LED shows it).
- **The viewer page's session automaton**, `BrowserSession`.
- **Parsers and printers.** `PortalText`, `ConfigStore`, `PortalForm`, `PortalSpelling`, `Utf8`, `Unicode`, `PortalBrowser` and
  `PortalRoundTrip` (the configuration portal with the browser on its other side), `CandidateScan` (candidates in an SDP),
  `IceTable` (the device's ICE servers and the minted ones they come from).

Code that changes state step by step is a class or an array loop proved against a function on values; the laws are lemmas about
those functions. I/O, clocks and foreign libraries are parameters: event times, channel answers, send results, receive sizes,
minted credentials.

## What turned out to be conditional

- **Parity of the two hubs** fails on one family of runs that its usual statement admits: an evicted viewer's close handled
  after the device has reconnected, though before any new claim. The Go hub then sends `viewer_gone` to the new device
  (`backend/internal/signaling/hub.go:176-181` is unconditional), the Durable Object nothing. `SocketParity.SocketParityExactly`
  gives the exact condition for every socket being told the same over a whole run, `HubParity.TidyParity` for the same in every
  step, and `HubParity.ReconnectBeforeEvictedCloseDiffers` the run.
- **The keepalive across the 32-bit wrap** holds, whatever the lateness of the hub's alarms, exactly for stamps that the clock
  does not come round to more than a millisecond after the connect and before the first iteration after it
  (`Keepalive.KeepaliveExactly`; its losing run needs an alarm up to a minute late). With alarms on time it holds for more:
  exactly unless the clock comes round to the stamp more than 30 s after the connect
  (`KeepaliveOnTime.KeepaliveExactlyOnTime`, with `KeepaliveOnTime.UnsafeLinkHappensOnTime` the input). A device that last
  pinged less than 49 days 17 hours before is always safe (`Keepalive.RecentPingIsSafe`).
- **The LED comment** (`esp32-firmware/main/webrtc_stream.c:201-204`: slow blink means the LAN fallback is serving) fails after
  exactly one kind of iteration: the ping that finds the connection dead before the LAN server was taken down.
  `PeerTheorems.LedFollowsModeExactly` and `PeerTheorems.BlindSpotHappens`. SOLID exactly while connected always holds.
- **The offer's servers under the split mint**: a mint that returns after its viewer has left overwrites the next session's
  cached servers. `HubSplit.CacheBreaksExactlyByLateMints` and `HubSplit.LateMintHappens`. The slots stay safe.
- **Loss inside a frame goes unnoticed** by the page: with its first and last chunk there, a frame with a gap is drawn
  (`FrameTheorems.LossExactly`, and `FrameTheorems.GapIsDrawn` for any JPEG of 20001 bytes without its middle chunk).
- **The Go registry can keep a claim without a device** (`GoSlots.ClaimMayOutliveDevice`), because the online check and the
  claim are two critical sections. A claim has its device throughout exactly the schedules without a claim taken while no device
  is attached (`GoSlots.WatchedExactly`). In the Durable Object it always has (`HubTheorems.SlotsAlways`).
- **"A device silent for 120 s is told to close"** fails when its viewer leaves after the last alarm
  (`HubWitness.SilentDeviceMayBeUntold`), because the alarm leaves a watched device alone
  (`cloudflare/src/devicehub.ts:282-299`). It is told exactly when an alarm comes during a vacancy and more than 90 s after its
  last sign of life (`HubHistory.DeviceIsToldExactly`); with alarms on time, 120 s of silence suffice if no claim was held for
  the last 30 s of them (`HubTiming.SilentDeviceIsToldWithin120s`).
- **"An idle holder is told to close within 90 s"** fails while other viewer sockets ping, because a ping of any viewer socket
  refreshes the one stamp (`cloudflare/src/devicehub.ts:223-225`): a page that is rejected, pings once and is gone keeps a dead
  holder's claim over the next alarm, and if it comes again, over any number of them (`HubWitness.OthersKeepTheHolder`).
  `HubHistory.HolderIsToldExactly` gives the exact condition.
- **The portal's round trip** is exact for a password if and only if it has no line breaks, which `config_validate` admits and a
  text field does not keep, and is well-formed UTF-8, or fills its 64 bytes and ends in the first byte or two of a replacement
  character (`PortalRoundTrip.PortalRoundTrip`; `PortalRoundTrip.SomePasswordsAreLost` names two that are lost).
- **The LED shows the connection** only as far as requests are not lost to the queue of four. With no flash due, SOLID is seen
  exactly while connected on every run on which no request finds the queue full (`LedMode.LedTellsTheConnection`); after four
  failed attempts between two turns of the LED task the connect is not seen (`LedMode.StormHidesTheConnect`).

## Model

| member | source | states |
|---|---|---|
| HubTheorems.SlotsAlways | cloudflare/src/devicehub.ts:103-172 | In every reachable state at most one device socket is not stale, and a stored claim is carried by exactly one viewer socket and has a live device |
| HubTheorems.SessionsEndOnce | cloudflare/src/devicehub.ts:119-266 | Over every run the sessions opened by `ice_servers` are, in order, the sessions ended by one `peer_gone` to that viewer or one `viewer_gone` to the device it was opened under, plus the one open now; no socket claims twice |
| HubTheorems.LateCloseIsInert | cloudflare/src/devicehub.ts:231-266 | The close of a rejected, evicted or stale socket sends nothing, frees nothing and leaves both slots with whom they were |
| HubTheorems.CloseEndsSession | cloudflare/src/devicehub.ts:235-265 | The holder's close sends exactly `viewer_gone` to the device and frees the claim; the live device's evicts the holder, frees the claim, stops the alarm and takes the row offline |
| HubTheorems.OfferCarriesHoldersServers | cloudflare/src/devicehub.ts:166-172 | An offer from the claim's holder reaches the live device with the one set of ICE servers that holder was ever sent |
| HubTheorems.DeviceReachesHolderOnly | cloudflare/src/devicehub.ts:192-208 | Answers and candidates of the live device reach exactly the claim's holder; a stale device moves nothing |
| HubTheorems.PresenceExact | cloudflare/src/db.ts:74-99 | The presence row reads online exactly while a non-stale device socket exists |
| HubTheorems.PresenceNeverGoesBack | cloudflare/src/db.ts:72-82 | From any reached world on, `first_seen` is fixed once set and `last_seen` never decreases |
| HubLedger.SocketsExactly | cloudflare/src/devicehub.ts:91-266 | Over every run the hub's sockets are exactly those opened and not closed since; a viewer's carries the session id of its own connect, and a device's is stale if and only if another device has connected since |
| HubLedger.DeviceExactly | cloudflare/src/devicehub.ts:103-117 | Over every run the device is exactly the one that connected last, until its close |
| HubLedger.ClaimLastsExactly | cloudflare/src/devicehub.ts:119-266 | From any reached world a claim lasts through a run if and only if no device connects in it and neither its viewer's nor its device's socket closes; once lost it is lost for good |
| HubLedger.PresenceRowExactly | cloudflare/src/db.ts:72-99 | Over every run there is a row exactly from the first device connect on; `first_seen` is the time of that connect, `last_seen` the last connect, close or live alarm of the device, and the id stored at the hub that of the last connect |
| HubLedger.AlarmExactly | cloudflare/src/devicehub.ts:275-306 | Over every run the alarm stands 30 s after the device's connect or the last alarm that left it open, and is off after its close, its idle close and an alarm without a device |
| HubLedger.ViewerStampExactly | cloudflare/src/devicehub.ts:119-266 | Over every run the claim's stamp is the last claim or ping of a viewer socket since a session was last cleared |
| HubLedger.ViewerIsAnswered | cloudflare/src/devicehub.ts:139-174 | In every reachable state a connecting viewer is told exactly one of three: device offline with 1000, busy with 1008, or its servers |
| HubLedger.TakeoverIsTold | cloudflare/src/devicehub.ts:103-130 | A device connect closes the device before it as superseded and evicts that one's viewer with `peer_gone` first |
| HubLedger.ViewerReachesDeviceOnly | cloudflare/src/devicehub.ts:210-228 | Offers and candidates of any viewer socket, also of a rejected one, reach exactly the live device, and only a ping changes the state |
| HubLedger.CloseCodes | cloudflare/src/devicehub.ts:107-322 | Over every run a close carries 1008 for a taken slot and 1000 otherwise |
| HubSafety.AfterDeviceConnect | cloudflare/src/devicehub.ts:91-137 | A device connect leaves the new socket as the only live device and the viewer slot free |
| HubSafety.AfterClaim | cloudflare/src/devicehub.ts:139-164 | A viewer connect keeps the slots and makes the newcomer the holder exactly if there is a device and no claim |
| HubSafety.AfterDrop | cloudflare/src/devicehub.ts:231-266 | A leaving live device or holder frees the claim; any other socket leaves without an effect |
| HubSafety.StepKeepsInv | cloudflare/src/devicehub.ts:91-323 | Every handler keeps the slots, servers cached exactly while claimed, and the row online exactly while there is a device |
| HubRuns.ClaimedIsEndedAndOpen | cloudflare/src/devicehub.ts:119-266 | In any log that reads as properly bracketed sessions, the claims are the ends in the same order and the open one |
| HubRuns.StepTracks | cloudflare/src/devicehub.ts:178-265 | What one step sends takes the session of the old claim to the session of the new one, so that answers only go to the open session's viewer and offers only to its device |
| HubRuns.PlayKeepsInv | cloudflare/src/devicehub.ts:91-323 | Whole runs keep the invariant together with the session reading, the sockets seen and the dates of the row |
| DeviceHubs.DeviceHub.FindDevice | cloudflare/src/devicehub.ts:327-333 | The search through the sockets finds the one live device, or shows there is none |
| DeviceHubs.DeviceHub.FindViewer | cloudflare/src/devicehub.ts:340-348 | The search finds the viewer socket whose session id is the stored claim |
| DeviceHubs.DeviceHub.SupersedeOthers | cloudflare/src/devicehub.ts:103-117 | The takeover loop marks exactly the live device sockets other than the new one as stale and closes each of them once |
| DeviceHubs.DeviceHub.EvictViewer | cloudflare/src/devicehub.ts:119-130 | The holder is sent `peer_gone` and then closed, and the claim, its activity and its servers are gone |
| DeviceHubs.DeviceHub.OnDeviceConnect | cloudflare/src/devicehub.ts:91-137 | The whole connect takes the hub where the state machine takes it: takeover, eviction, row and alarm; what that leaves over whole runs is `HubLedger.DeviceExactly`, `HubLedger.PresenceRowExactly` and `HubLedger.AlarmExactly` |
| DeviceHubs.DeviceHub.OnViewerConnect | cloudflare/src/devicehub.ts:139-174 | The handler refines the viewer connect: offline rejection, busy rejection, or claim and `ice_servers` |
| DeviceHubs.DeviceHub.WebSocketMessage | cloudflare/src/devicehub.ts:178-229 | The handler refines the relay step of either role |
| DeviceHubs.DeviceHub.WebSocketClose | cloudflare/src/devicehub.ts:231-266 | The handler refines the close step of either role, stale or not |
| DeviceHubs.DeviceHub.OnAlarm | cloudflare/src/devicehub.ts:275-323 | The handler refines the alarm step: idle device, presence refresh, idle viewer |
| HubHistory.HolderIsToldExactly | cloudflare/src/devicehub.ts:223-225 | Over every run: since its own last claim or ping the holder has been told to close exactly if an alarm has come more than 60 s after that and after every ping of another viewer socket since, and at the first such alarm |
| HubHistory.DeviceIsToldExactly | cloudflare/src/devicehub.ts:281-299 | Over every run: since its connect the device has been told to close exactly if an alarm has come during a vacancy and more than 90 s after its last sign of life, and at the first such alarm |
| HubHistory.ViewerClosedExactly | cloudflare/src/devicehub.ts:308-322 | A run closes no holder as idle if and only if none of its alarms finds one silent |
| HubHistory.DeviceClosedExactly | cloudflare/src/devicehub.ts:281-299 | A run closes no device as idle if and only if none of its alarms finds an unwatched one silent |
| HubTiming.IdleHolderIsToldWithin90s | cloudflare/src/devicehub.ts:308-322 | With alarms on time and the device not told to close, a holder is told to close more than 60 s after its own last sign of life, and at most 90 s after it if no other viewer socket has pinged since, else at most 90 s after the last of those pings |
| HubTiming.SilentDeviceIsToldWithin120s | cloudflare/src/devicehub.ts:281-299 | With alarms on time, a device silent for 120 s, with no claim held for the last 30 s of them, has been told to close |
| HubWitness.SilentDeviceMayBeUntold | cloudflare/src/devicehub.ts:282-299 | A run with alarms on time after which an unwatched device has been silent for 149 s and has not been told |
| HubWitness.OthersKeepTheHolder | cloudflare/src/devicehub.ts:223-225 | For any number of half minutes, a run with alarms on time after which the holder has been silent for them and has not been told, kept by the pings of rejected pages whose sockets are closed within 10 s |
| HubTiming.PresenceIsFresh | cloudflare/src/devicehub.ts:301-303 | With alarms on time, the row of a device not told to close is online and at most 30 s old |
| HubHistory.LivelyViewerIsNeverClosed | cloudflare/src/devicehub.ts:308-312 | In every run whose holders' own claims and pings leave at most 60 s to any alarm, no viewer is closed as idle, whenever the alarms fire |
| HubHistory.LivelyDeviceIsNeverClosed | cloudflare/src/devicehub.ts:288-298 | In every run whose devices' connects and pings leave at most 90 s to any alarm, no device is closed as idle, whenever the alarms fire |
| HubTiming.TimelyRecountKeepsInv | cloudflare/src/devicehub.ts:275-323 | Runs with alarms on time keep the alarm ahead of every window that must not close unseen |
| HubSplit.SplitSlotsAlways | cloudflare/src/devicehub.ts:139-172 | The slots stay safe when other handlers run between a claim and the return of its mint |
| HubSplit.CacheBreaksExactlyByLateMints | cloudflare/src/devicehub.ts:166-170 | A step makes the cached servers differ from those the holder was sent if and only if it is the return of another session's mint with other servers |
| HubSplit.CacheTrueExactly | cloudflare/src/devicehub.ts:166-170 | Throughout a split run the cache is the holder's if and only if no step of it is such a return |
| HubSplit.RunIsSplit | cloudflare/src/devicehub.ts:161-172 | Every run with exclusive handlers is a split run without such returns that reaches the same hub |
| HubSplit.ExclusiveRunsKeepTheCache | cloudflare/src/devicehub.ts:166-172 | So with exclusive handlers the cache is always the holder's |
| HubSplit.LateMintHappens | cloudflare/src/devicehub.ts:169-170 | For any two sets of servers there is a run after which the holder was sent one and its offers carry the other |
| Registry.Device.AttachConn | backend/internal/registry/registry.go:31-36 | Attaching replaces the device slot, whoever had it, keeps the viewer slot and stamps the time; over schedules, `GoSlots.LastAttachedExactly` |
| Registry.Device.DetachConn | backend/internal/registry/registry.go:40-50 | Detaching clears the device slot only if it is the caller's, always empties the viewer slot, and returns who was in it |
| Registry.Device.TryClaimViewer | backend/internal/registry/registry.go:80-88 | The claim succeeds exactly on an empty slot and leaves a taken one alone |
| Registry.Device.ReleaseViewer | backend/internal/registry/registry.go:91-97 | The release clears the slot exactly if the caller holds it |
| Registry.Device.Close | backend/internal/registry/registry.go:112-124 | Both slots are emptied and what was in them is closed, the viewer first |
| GoSlots.SlotsBelongToRunningHandlers | backend/internal/signaling/hub.go:94-185 | Under any interleaving and shutdown: the viewer slot belongs to a handler between its claim and its release, the device slot to one that has not detached, and with all viewer handlers done the slot is empty |
| GoSlots.HandlersMoveOn | backend/internal/signaling/hub.go:164-185 | Handlers never go back, a finished or refused one never holds the slot again, a claim that was lost is never regained, and a claim is only lost by its own release, a device leaving or the shutdown |
| GoSlots.LastAttachedExactly | backend/internal/registry/registry.go:31-50 | Under any interleaving the device slot holds exactly the connection attached last, until its own detach or the shutdown: a reconnect takes it from a dead connection, whose detach then leaves it |
| GoSlots.ClaimHoldsExactly | backend/internal/registry/registry.go:80-97 | A claim holds the viewer slot exactly if it found it empty, and until its own release, the return of any device handler, also of a replaced one, or the shutdown |
| GoSlots.OfflineIsRefused | backend/internal/signaling/hub.go:164-168 | A viewer's check refuses it exactly without a device, and then for good |
| GoSlots.WatchedExactly | backend/internal/signaling/hub.go:164-169 | From any system whose claim has a device: a claim has its device after every step of a schedule if and only if no claim of it is taken while no device is attached |
| GoSlots.WatchedFromTheStart | backend/internal/registry/registry.go:53-88 | The same from a registry that nobody has used |
| GoSlots.ClaimMayOutliveDevice | backend/internal/signaling/hub.go:164-169 | There is a schedule that ends with a claim and no device |
| GoHub.SignalingHub.Handle | backend/internal/signaling/hub.go:75-248 | Every event, through the read loops, the relays that fail and the deferred cleanups, takes the Go hub's slots, handlers and output where the compared machine takes them |
| GoSchedules.GoHubIsScheduled | backend/internal/signaling/hub.go:75-248 | Over every run the compared machine's slots are those of the schedule in which each event runs its critical sections at once, so that the laws of all interleavings hold of it |
| GoSchedules.GoDeviceExactly | backend/internal/registry/registry.go:31-50 | Over every run, overlapping devices included, its device is exactly the one that connected last, until its close |
| GoSchedules.ClaimHasDevice | backend/internal/signaling/hub.go:164-169 | With handlers run between reads a claim always has a device, unlike under finer interleavings |
| GoSchedules.GoRelaysExactly | backend/internal/signaling/hub.go:111-248 | Any device handler relays to the claim, also one that has been replaced; a viewer handler relays to the device, returns when there is none, and is not heard once evicted |
| GoSchedules.GoAnswersExactly | backend/internal/signaling/hub.go:164-203 | In any state, overlaps included, a viewer's connect is answered by exactly one of three: offline, busy, or its servers and the claim |
| GoSchedules.GoReturnsExactly | backend/internal/signaling/hub.go:94-185 | In any state, a device handler that returns evicts whoever has the claim, also when it has been replaced, and a viewer handler that returns sends `viewer_gone` to whatever device there is |
| HubParity.StepParity | backend/internal/signaling/hub.go:94-246 | From like states, a step tells every socket the same in both hubs if and only if it is aligned, and the states stay alike unless devices overlap in it |
| HubParity.ParityExactly | cloudflare/src/devicehub.ts:91-266 | On whole runs the two hubs' traces are equal if and only if every step is aligned |
| HubParity.ParityFromTheStart | backend/internal/registry/registry.go:31-97 | The same from two empty hubs |
| HubParity.TidyParity | cloudflare/src/devicehub.ts:91-266 | The same in the hub's own terms: the traces are equal if and only if no device sockets overlap and, while there is a device, viewers without the claim stay silent and no close of an evicted viewer comes in |
| SocketParity.SocketParityExactly | cloudflare/src/devicehub.ts:91-266 | Every socket is told the same by both hubs over a whole run if and only if no device sockets overlap and, while there is a device, viewers without the claim stay silent and no close of an evicted viewer comes in |
| SocketParity.SomeSocketDiffers | backend/internal/signaling/hub.go:176-246 | What a run out of line tells some socket too much is never made up for: it is told more offers and candidates or superseding closes by the one hub, or more `viewer_gone` by the other |
| HubParity.EvictedCloseAfterReconnect | backend/internal/signaling/hub.go:176-181 | In any such state, an evicted viewer's close makes the Go hub send `viewer_gone` to the new device and the Durable Object nothing |
| HubParity.ReconnectBeforeEvictedCloseDiffers | backend/internal/signaling/hub.go:176-181 | A five-step run without overlapping devices, without a rejected viewer and without a new claim on which the traces differ |
| FrameWire.DecodeEncode | cloudflare/assets/view.html:62-66 | The page reads a chunk as the firmware wrote it if and only if its payload is shorter than 2^31 bytes |
| FrameWire.WireFormat | esp32-firmware/main/webrtc_stream.c:818-823 | A chunk is its flags, start bit 0 and end bit 1, the payload's length with the highest byte first, and the payload |
| FrameWire.DecodeExactly | cloudflare/assets/view.html:62-66 | For any bytes whatever: the page takes a message for a chunk if and only if its length field, read so and below 2^31, is the length of the rest |
| FrameWire.JpegExactly | esp32-firmware/main/webrtc_stream.c:804-807 | The frames that are sent are exactly those that begin FF D8 and end FF D9 with anything of any length between |
| FrameWire.ReceiveEncoded | cloudflare/assets/view.html:62-75 | Receiving the messages of sent parts is feeding the parts |
| FrameWire.PartsOf | esp32-firmware/main/webrtc_stream.c:813-849 | The parts of a frame have 10000 bytes each but the last, which has 1 to 10000, are marked start and end exactly at the two ends, and together are the frame |
| FrameSenders.FrameSender.Pack | esp32-firmware/main/webrtc_stream.c:816-825 | The chunk buffer holds exactly the encoding of the frame's next part, within its 10005 bytes |
| FrameSenders.FrameSender.SendFrame | esp32-firmware/main/webrtc_stream.c:796-852 | What is refused as no JPEG is exactly what is not FF D8, any bytes, FF D9; else the channel is handed the frame's chunks up to its first refusal, and the result is OK exactly if there was none, and names the refusal or the failed check otherwise |
| FrameReceivers.FrameReceiver.OnChunk | cloudflare/assets/view.html:62-75 | The page's chunk list and byte count follow the reassembly on parts |
| FrameReceivers.FrameReceiver.DrawFrame | cloudflare/assets/view.html:77-79 | The blob is the payloads held, in order, and the receiver is idle again |
| FrameReceivers.FrameReceiver.Teardown | cloudflare/assets/view.html:191-196 | A torn-down connection drops the frame in flight and nothing that was drawn |
| FrameTheorems.DrawsExactlyTheSentFrames | esp32-firmware/main/webrtc_stream.c:813-851 | Whatever the channel refuses and from any receiver state, the page draws exactly the frames whose send returned ESP_OK, byte for byte and in order |
| FrameTheorems.IntactFrameIsDrawn | cloudflare/assets/view.html:62-79 | An intact frame delivered in one piece is drawn exactly, from any receiver state |
| FrameTheorems.JoinsExactly | cloudflare/assets/view.html:67-75 | After any parts whatever, a start begins a new frame and drops the one in flight, a later part joins exactly a frame that has bytes, and an end draws what there is |
| FrameTheorems.DrawnBlobsAreFramed | cloudflare/assets/view.html:62-79 | Under arbitrary loss, repetition and reordering every drawn blob has its one start chunk at the front and its one end chunk at the back, begins FF D8 and ends D9, and `frameBytes` is the bytes held |
| FrameTheorems.LossExactly | cloudflare/assets/view.html:67-74 | A frame that loses chunks is drawn as something exactly if its first and last chunk arrive, and as itself exactly if all do |
| FrameTheorems.GapIsDrawn | cloudflare/assets/view.html:67-74 | Any JPEG of 20001 bytes without its middle chunk is drawn as one image that is not the frame |
| FrameTheorems.GapHappens | esp32-firmware/main/webrtc_stream.c:804-804 | There is a frame of that size that the sender takes for a JPEG |
| PeerLoop.PeerTask.MarkWsDisconnected | esp32-firmware/main/webrtc_stream.c:484-491 | The disconnect stamp is taken only on the transition out of connected |
| PeerLoop.PeerTask.WebsocketEvent | esp32-firmware/main/webrtc_stream.c:493-545 | Each event takes the shared flags where the machine takes them and sends no ping |
| PeerLoop.PeerTask.LanStreamStart | esp32-firmware/main/lan_stream.c:86-125 | The server is started unless it runs; a failed start leaves it down |
| PeerLoop.PeerTask.LanStreamStop | esp32-firmware/main/lan_stream.c:127-140 | The server is down and flagged as stopping |
| PeerLoop.PeerTask.PeerIteration | esp32-firmware/main/webrtc_stream.c:221-272 | One iteration refines the machine, and pings exactly when 30 s have passed on the 32-bit clock while connected |
| PeerTheorems.FlagsAlwaysAgree | esp32-firmware/main/webrtc_stream.c:225-271 | At every step boundary `lan_up`, `s_lan_active` and `s_server` agree, a running server is not flagged as stopping, and SOLID was last requested exactly while connected |
| PeerTheorems.StepExactly | esp32-firmware/main/webrtc_stream.c:221-272 | What each step changes: the connection is lost by an event or a ping that fails on a dead client, the LAN server goes down in an iteration that begins connected and is tried a minute into the window, and the stamps are those of the ping, the loss and the failed start |
| PeerTheorems.StoppingExactly | esp32-firmware/main/lan_stream.c:86-140 | In every run from boot the handlers of the LAN server, for which its takedown waits, are told to stop exactly from each takedown to the next try to start it |
| PeerTheorems.LedFollowsModeExactly | esp32-firmware/main/webrtc_stream.c:201-214 | The LED keeps naming the mode through every step except exactly the iteration that finds the connection dead with the LAN server still up |
| PeerTheorems.BlindSpotHappens | esp32-firmware/main/webrtc_stream.c:247-260 | A three-step run from boot after which the LED blinks slowly with no LAN server |
| PeerTheorems.ElapsedIsReal | esp32-firmware/main/webrtc_stream.c:226-227 | Unsigned 32-bit subtraction is the real elapsed time for spans below 2^32 ms, however the clock has wrapped |
| PeerTheorems.TurnInWindow | esp32-firmware/main/webrtc_stream.c:261-270 | While offline the server is tried exactly from 60 s into the window on, and a failed try opens another full window |
| PeerTheorems.StormWaits | esp32-firmware/main/webrtc_stream.c:479-491 | Through any storm of further losses the window stays that of the first transition or of the last failed start |
| PeerTheorems.FallbackEngages | esp32-firmware/main/webrtc_stream.c:247-271 | After a loss, by a websocket event or found by a failed ping, and any storm: an iteration 60 s into the window has the LAN server running, unless a start failed, and then within another window |
| Keepalive.KeepaliveExactly | esp32-firmware/main/webrtc_stream.c:225-236 | With iterations at most 60 s apart and alarms of any lateness, no run idle-closes a fresh connection if and only if the 32-bit clock does not come round to the old ping stamp more than a millisecond after the connect and before the first iteration is due |
| Keepalive.SafeLinksStay | cloudflare/src/devicehub.ts:288-298 | From a safe connection on, whatever else happens at the hub and however late its alarms, the device is never closed as idle |
| Keepalive.UnsafeLinkIsLost | esp32-firmware/main/webrtc_stream.c:226-228 | From an unsafe one there is a run that idle-closes it: two iterations without a ping, and an alarm that comes only after 90 s |
| Keepalive.UnsafeLinkHappens | esp32-firmware/main/webrtc_stream.c:218-228 | A camera that first connects a second before its clock wraps has a stamp that is unsafe under late alarms |
| KeepaliveOnTime.KeepaliveExactlyOnTime | esp32-firmware/main/webrtc_stream.c:225-236 | With iterations at most 60 s apart and alarms on time, no run idle-closes a fresh connection if and only if the 32-bit clock does not come round to the old ping stamp more than 30 s after the connect and before the first iteration is due |
| KeepaliveOnTime.SafeLinksStayOnTime | cloudflare/src/devicehub.ts:281-303 | From a connection safe on time, no run with alarms on time closes the device as idle: until its first ping the alarm stands at 30, 60, 90 or 120 s |
| KeepaliveOnTime.UnsafeLinkIsLostOnTime | esp32-firmware/main/webrtc_stream.c:226-228 | From any other a run with alarms at 30, 60, 90 and 120 s idle-closes it |
| KeepaliveOnTime.UnsafeLinkHappensOnTime | esp32-firmware/main/webrtc_stream.c:218-228 | A camera that first connects 40 s before its clock wraps has such a stamp |
| Keepalive.ConnectMakesLink | cloudflare/src/devicehub.ts:132-135 | Every device connect, in any reached world, starts such a connection |
| Keepalive.RecentPingIsSafe | esp32-firmware/main/webrtc_stream.c:226-227 | A stamp less than the 32-bit period and one gap old is safe |
| LedTask.Task.Drain | esp32-firmware/main/led.c:37-46 | Draining applies the queued commands in order |
| LedTask.Task.Turn | esp32-firmware/main/led.c:36-83 | One turn shows the pattern that is active after the drain and counts its flash down |
| LedTask.Task.Send | esp32-firmware/main/led.c:107-123 | A command is queued, or dropped when four are waiting |
| LedTask.ShowsLastPersistent | esp32-firmware/main/led.c:38-82 | However transients, patterns and periods interleave, the LED flashes for exactly the flashes still due and otherwise shows the last persistent pattern |
| LedTask.DrainedIsHeard | esp32-firmware/main/led.c:36-46 | The queue delays but does not reorder: once drained, the task stands where the accepted requests put it |
| LedTask.ShowsWhatWasRequested | esp32-firmware/main/led.c:107-123 | From the dark, a turn shows what the accepted requests call for; those are all the requests if and only if none found four waiting, and then it shows what was requested |
| LedTask.LostRequestShows | esp32-firmware/main/led.c:98-113 | Four requests for FAST_FLASH and one for SOLID before a turn: the LED flashes |
| LedMode.LastRequestIsShown | esp32-firmware/main/webrtc_stream.c:205-214 | Over every interleaving, the last persistent pattern requested at the queue is the one the connection tasks last asked for |
| LedMode.UpdatesExactly | esp32-firmware/main/webrtc_stream.c:201-271 | The LED is asked for a pattern exactly by connects, losses, the iteration that finds the connection dead and the one that has the server up |
| LedMode.LedTellsTheConnection | esp32-firmware/main/webrtc_stream.c:201-214 | With no flash due the LED shows the last pattern that found room; on every run on which no request finds four waiting that is the one last asked for, and SOLID exactly while connected |
| LedMode.StormHidesTheConnect | esp32-firmware/main/led.c:107-114 | After four failed attempts between two turns the LED flashes on while the camera is connected |
| BrowserSession.ViewPage.Restart | cloudflare/assets/view.html:198-202 | The page's variables, timers, sockets and connections follow the automaton's restart |
| BrowserSession.ViewPage.DoConnect | cloudflare/assets/view.html:209-216 | The same for a connect |
| BrowserSession.ViewPage.Dispatch | cloudflare/assets/view.html:106-227 | The same for every callback; what the callbacks leave over whole runs is `BrowserSession.PageExactly` |
| BrowserSession.NeverStalls | cloudflare/assets/view.html:198-227 | After the first connect, in every run: `ws` is null exactly when one timer is pending, at most one socket is not closing, at most one peer connection is open, and they are the page's own |
| BrowserSession.PageExactly | cloudflare/assets/view.html:106-227 | Read off the events with a session counter: there is a peer connection if and only if `ice_servers` of the present session has come and neither the close of its socket, a failure nor the next session since, and a socket if and only if no such close or failure came in this session |
| BrowserSession.ClosedExactly | cloudflare/assets/view.html:209-226 | Each session has opened one socket, and closed are exactly those whose close event has come |
| BrowserSession.OldSocketsNeverMatter | cloudflare/assets/view.html:217-226 | Whatever sockets of older sessions still do, and whenever: session, socket, peer connection and timers are those of the run without it |
| BrowserSession.ReconnectConnects | cloudflare/assets/view.html:204-216 | Whenever there is no socket, the pending timer can fire and opens a socket of a new session |
| CandidateScan.NoOverlap | esp32-firmware/main/webrtc_stream.c:373-373 | The pattern never occurs within eleven characters of an occurrence |
| CandidateScan.OccursExactly | esp32-firmware/main/webrtc_stream.c:356-356 | An occurrence at an offset is the pattern with any text of that length before it and any after |
| CandidateScan.FedMeansOccurs | esp32-firmware/main/webrtc_stream.c:356-372 | What is fed are exactly the stripped rest-of-line texts of occurrences, shorter than 8192 |
| CandidateScan.TextBeginsWithPattern | esp32-firmware/main/webrtc_stream.c:356-362 | Such a text begins with the pattern, so that only its length can keep it from being fed |
| CandidateScan.FeedsFrom | esp32-firmware/main/webrtc_stream.c:356-374 | Going from occurrence to occurrence and skipping eleven characters misses nothing that a position-by-position scan finds |
| CandidateScan.LineLength | esp32-firmware/main/webrtc_stream.c:357-361 | The line's length without its line end |
| CandidateScan.FeedLine | esp32-firmware/main/webrtc_stream.c:362-372 | A line that fits is copied into the static buffer and handed over whole |
| CandidateScan.FeedEmbeddedCandidates | esp32-firmware/main/webrtc_stream.c:353-375 | The loop ends and feeds the texts of all occurrences, once each and in order |
| IceTable.IceTable.PickUrl | esp32-firmware/main/webrtc_stream.c:317-329 | The first URL that contains `transport=udp`, else the first string, else none |
| IceTable.PickIsUnique | esp32-firmware/main/webrtc_stream.c:314-329 | That choice is unique |
| IceTable.PickExactly | esp32-firmware/main/webrtc_stream.c:314-329 | Whatever comes after it, the first URL that offers UDP is picked; without any, the first string |
| IceTable.UdpExactly | esp32-firmware/main/webrtc_stream.c:324-327 | A URL offers UDP exactly if `transport=udp` stands anywhere in it |
| IceTable.TurnEntryExactly | esp32-firmware/main/webrtc_stream.c:330-342 | There is a TURN entry exactly for a picked URL of 1 to 127 bytes and two string credentials, which it carries whole up to 128 bytes and cut at 128 beyond |
| IceTable.IceTable.AddStun | esp32-firmware/main/webrtc_stream.c:296-309 | At most three STUN entries are written, in order, up to the first item that is not a string |
| IceTable.StunExactly | esp32-firmware/main/webrtc_stream.c:296-309 | For any list: the STUN entries are the first three URLs of 1 to 127 bytes among the strings before the first item that is none |
| IceTable.IceTable.BuildIceServers | esp32-firmware/main/webrtc_stream.c:292-347 | At most four entries are written, STUN first, then the TURN entry of the picked URL if it can be made, with the offered username and credential, all of them up to 128 bytes and their first 128 beyond |
| IceTable.TurnIsNeverCrowdedOut | esp32-firmware/main/webrtc_stream.c:299-333 | Whatever the STUN list, a TURN entry that can be made is in the table, as its last, and every URL fits its buffer |
| IceTable.NormalisedUsesFirst | cloudflare/src/turn.ts:70-83 | The servers of a session come from the first usable entry, cut to the primary URLs in canonical order if it has any |
| IceTable.PrimaryExactly | cloudflare/src/turn.ts:72-79 | For any offer: the URLs of a session are the primary ones offered, UDP before TCP before TLS, or else those offered |
| IceTable.StunAloneExactly | cloudflare/src/turn.ts:70-84 | A session has STUN alone exactly if no entry has URLs, a username and a credential |
| IceTable.DeviceUsesCanonicalUdp | cloudflare/src/turn.ts:31-36 | From the provider's answer to the device's table: if the chosen entry offers the canonical UDP URL anywhere, the device uses that one, with the minted credentials: literally up to 128 bytes, and their first 128 beyond |
| PortalText.HtmlEscape | esp32-firmware/main/web_portal.c:42-63 | The buffer holds the escaping of the longest prefix its guard admits, terminated inside it |
| PortalText.BufferIsExact | esp32-firmware/main/web_portal.c:69-72 | In `6 * max + 1` bytes no field of up to `max` characters is truncated; in one byte less a field of quotes is |
| PortalText.UnescapeEscape | esp32-firmware/main/web_portal.c:47-53 | A browser reads back every escaped field, whatever it holds |
| PortalSpelling.EscapedIsInert | esp32-firmware/main/web_portal.c:47-53 | Escaped text cannot leave its attribute: no angle bracket, no quote, and every ampersand begins one of the five references |
| PortalSpelling.EscapedExactly | esp32-firmware/main/web_portal.c:45-45 | The escaper stops exactly where what is written leaves no room for a longest replacement and the terminator |
| PortalText.UrlDecodeInto | esp32-firmware/main/web_portal.c:102-130 | The decoder stays in its buffer, succeeds exactly when text, room and triples allow, and then leaves the decoded text terminated |
| PortalText.DecodeEncode | esp32-firmware/main/web_portal.c:101-130 | Decoding undoes form-urlencoding of any bytes, exactly up to the room there is |
| PortalSpelling.DecodedExactly | esp32-firmware/main/web_portal.c:93-130 | For any text at all: decoding gives a string if and only if it fits and the text spells it, each character by itself, a `+` or a triple in hexadecimal digits of either case |
| ConfigStore.ConfigValidate | esp32-firmware/main/config_store.c:22-85 | Accepts exactly the valid configurations, local-mode prefixes and ports included |
| ConfigStore.ValidExactly | esp32-firmware/main/config_store.c:22-85 | Valid are exactly: a name of 1 to 32 printable ASCII characters, a password of at most 64, a token of 1 to 64 printable ones without blanks, and a host of 1 to 63 of letters, digits, dots and hyphens, or after `ws://` or `http://` also of colons |
| ConfigStore.LoadedExactly | esp32-firmware/main/config_store.c:87-128 | A load finds a configuration exactly in a cell that holds a valid one under the layout's size, magic number and version, and else tells an empty cell from a foreign one |
| ConfigStore.Store.Save | esp32-firmware/main/config_store.c:130-155 | Writes the stamped blob exactly for a valid configuration and a working store, and else leaves the cell alone |
| ConfigStore.SaveThenLoad | esp32-firmware/main/config_store.c:87-155 | What was saved is loaded with its reserved bytes zeroed, and a load is OK only with a valid configuration |
| PortalForm.Parser.ParseForm | esp32-firmware/main/web_portal.c:136-173 | Splitting the body in place and decoding into the two buffers applies its pairs in order, ignoring malformed and unknown ones |
| PortalSpelling.TokensExactly | esp32-firmware/main/web_portal.c:143-145 | The tokens of a body are those before any of its ampersands and those after it; a piece without ampersands is one token unless empty |
| PortalSpelling.ApplyExactly | esp32-firmware/main/web_portal.c:146-158 | A token that spells a key of at most 63 bytes, `=` and a value of at most 2048 sets what it says, and every other token is ignored |
| PortalSpelling.SetExactly | esp32-firmware/main/web_portal.c:160-170 | A value sets the field of its key alone, cut to 32, 64, 63 or 64 bytes; the checkbox is set whatever its value |
| PortalSpelling.ParsedExactly | esp32-firmware/main/web_portal.c:136-141 | What counts of a body is what stands before its first terminator, and of that the first 2048 bytes |
| Utf8.RepairIsSameExactly | esp32-firmware/main/web_portal.c:22-22 | A browser's UTF-8 decoding and encoding gives bytes back if and only if they are well-formed |
| Unicode.UnitExactly | esp32-firmware/main/web_portal.c:22-22 | Against the encoder of RFC 3629: the decoder takes an encoded scalar value if one stands at the front, and else puts U+FFFD for the longest beginning of any, or for one byte that begins none |
| Unicode.WellFormedExactly | esp32-firmware/main/web_portal.c:22-22 | Well-formed are exactly the encodings of scalar values in a row |
| Utf8.SurvivesExactly | esp32-firmware/main/web_portal.c:163-163 | Bytes of at most a field's length survive that and the field's cut if and only if they are well-formed, or fill the field and end in the first byte or two of a replacement character |
| PortalBrowser.RepairOfEscaped | esp32-firmware/main/web_portal.c:42-63 | Decoding the escaped field is escaping the decoded one |
| PortalBrowser.SanitisedExactly | esp32-firmware/main/web_portal.c:26-29 | Line breaks are taken out one by one and all else stays in its order |
| PortalBrowser.BrowserReads | esp32-firmware/main/web_portal.c:66-91 | A valid configuration fits the page, and a browser reads from it the same configuration with its password as browsers keep it |
| PortalRoundTrip.PortalRoundTrip | esp32-firmware/main/web_portal.c:66-173 | For every valid configuration, posting the untouched form parses, within the body limit, to it with its password decoded, stripped of line breaks and cut to its field, which is the same if and only if the password survives |
| PortalRoundTrip.AsciiRoundTrip | esp32-firmware/main/web_portal.c:66-173 | For ASCII passwords only the line breaks are lost |
| PortalRoundTrip.SomePasswordsAreLost | esp32-firmware/main/web_portal.c:160-165 | The passwords of a line break and of a byte FF are valid and do not come back |
| PortalRoundTrip.ReadBody | esp32-firmware/main/web_portal.c:188-206 | A body over 2048 bytes is refused; else, however it is cut up and delayed, what is read is the body, or the read fails |
| PortalRoundTrip.ReadsExactly | esp32-firmware/main/web_portal.c:195-205 | A body is read exactly if the calls bring its bytes before one of them fails or finds the connection closed; timeouts are retried and change nothing |
| PortalRoundTrip.Portal.Save | esp32-firmware/main/web_portal.c:208-228 | The cell changes exactly if the submission is valid and the store writable, and then loads as what was submitted |
| PortalRoundTrip.SaveUntouched | esp32-firmware/main/web_portal.c:175-229 | Opening the portal and saving the untouched form stores the configuration with its password as browsers keep it, the same as before if and only if the password survives |

## Left out

- TLS, DTLS, SCTP, ICE and the esp_peer, esp_websocket_client, pion and workerd internals: foreign libraries; their results and events are parameters.
- The HTTP request to the TURN provider and the HMAC minting: foreign calls; a mint is any value of `IceServers`.
- JSON encoding: messages are a datatype, and a field that is absent equals an empty one.
- Worker routing before the hub: a device id never seen is a 404 there, so that no hub is reached (`cloudflare/src/index.ts:152-155`).
- The schema flag and `ensureDatabase` in the device connect: no effect on the modelled state.
- Sends and closes that throw in `safeSend` and its neighbours: a failed send is the loss of a message by the socket; what is modelled is what the hub hands to the runtime.
- Interleavings at the D1 awaits inside a device connect or close: handlers are exclusive, except for the mint.
- HubParity.TidyParity: idle closes of the alarm are taken as the Go hub's read timeouts and not compared, and the Go hub's final close of a connection with an empty reason is not compared, because the socket is gone by then.
- GoHub.SignalingHub.Handle: a handler runs from one read to the next in one step; finer interleavings are in `GoSlots`, without messages.
- Registry.Device.Close: the shutdown reason sent to both sockets is not modelled; who is closed and in which order is.
- Registry map and device id validation: plain lookup.
- Keepalive.KeepaliveExactly: as in `KeepaliveOnTime`, the ping of an iteration is taken to reach the hub at once, and the firmware to see CONNECTED when the hub runs its connect routine.
- PeerTheorems.FallbackEngages: requires iterations less than 2^32 - 60000 ms apart, because a 32-bit stamp cannot tell longer gaps.
- `s_dc_open`, `on_peer_state` and `handle_offer`'s session restart: flags of the foreign peer; the sender takes an open or closed channel.
- PeerLoop.PeerTask.LanStreamStart: a failing mDNS start only warns in the source and is not an input here.
- URI, path and header strings built in `webrtc_stream_init`: bounded formatting, it would only add easy members.
- PortalForm.Parser.ParseForm: the terminator that the source writes over `=` inside a token is not written; the token is split as a value.
- The browser at the portal: the five references the portal writes, UTF-8 as the form declares it, a text field's stripping of line breaks and form-urlencoding; nothing is typed into the form.
- ConfigStore.Store.Save: NVS is one atomic cell that opens, writes and commits or fails as a whole, with one error for its several.
- LED timing, canvas drawing, stats polling, status texts and the streaming task's counters: no protocol state.
- Races finer than one peer-loop iteration or one websocket event: the properties are stated for those steps.
- LedMode.LedTellsTheConnection: whether the queue ever fills is a matter of task timing, which is not modelled.
