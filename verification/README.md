# ESP IoT Log: a verified model

The repository lets small devices send log lines and metrics over UDP multicast to a Python
receiver. A device is silent until it has reason to believe that somebody listens: the Zephyr
port hears the receiver's beacons and keeps a lease on them, the Arduino class and the ESP-IDF
port ask mDNS. This project models the three senders, the message queue behind the Zephyr log
backend, the packet format and the receiver's side of it, and proves what holds of them in every
run. Device clocks are integers, in milliseconds (microseconds in ESP-IDF), the receiver's clock and
the network's time are real; bytes and machine words are integers with a range; bits are sequences of
booleans.

## How it is built

| files | content |
|---|---|
| `Words`, `Crc`, `CrcTheory` | machine words; the CRC as a bit-serial register, with the C and Python loops; the CRC as a polynomial remainder and what it detects |
| `Wire`, `Payloads` | the packet and its serialisers, the receiver's parser, metric payloads, the receiver object |
| `ByteRing`, `FrameQueue` | the circular byte array; the framed queue on it as interleaved steps of a logging thread and draining threads |
| `ListenerLease`, `Backend`, `ZephyrDevice` | the Zephyr sender and log backend as functions, and the two C files as objects proved to compute them |
| `LeaseHistory`, `DeviceRuns`, `RunTheorems`, `QueueTheorems` | whole runs of a Zephyr device, phase by phase (`DeviceRuns`) or poll by poll (`PollRuns`, in the same file) |
| `Delivery`, `DeviceEffects`, `IdfEffects`, `SketchEffects` | what each call of each of the three senders does at the end of every run, in numbers, fields and bytes on the wire |
| `BeaconNetwork`, `BeaconLimits`, `NetworkQueue` | receiver, network and device, its queue included, as one clocked system |
| `RateLimit`, `Discovery`, `Arduino`, `EspIdf`, `Compatibility` | the rate limiter and the discovery backoff over wrapping clocks, the two mDNS ports, the three senders on one wire |

State that the program updates in place is a class, and every method states its new state as a
function of the old; the theorems are about those functions. The `…Effects` modules fix what the
functions compute without naming them: which fields move and to what, which packets leave and what the
receiver reads in them, and that nothing else happens. What the program reads from outside
(clock, attachment, `sendto`, mDNS answers, the formatter's output) is a parameter of the call, so
the theorems hold for all readings. The runs of a Zephyr device keep a history of events as a
ghost field; nothing in the program depends on it.

Hypotheses of the theorems about runs: a clock that does not go back and is positive (for the
receiver, past the first 30 s of its epoch); one thread polls (`iot_log_poll` is reachable from the
work handler, zephyr/iot_log_zephyr.c:351-354, and from the application, and
`FrameQueue.TwoConsumersMisframe` shows what two drains can do). The theorems about the lease and the
counters hold of `DeviceRuns`, in which sends and log calls of other threads come between any two
phases of a poll; those about messages waiting for a poll hold of `PollRuns`, in which they come
between polls. A message queued between a poll's drain and its expiry is the exception, and
`QueueTheorems.Stranded` says what becomes of it. The overlap of one log call with one drain, put by
put and get by get, is the subject of `FrameQueue`. In `BeaconNetwork` only beacons come to the
device's socket. Other datagrams make no difference unless they are empty: an empty one ends the
receive loop and hides the beacons behind it from that poll (`ListenerLease.EmptyHides`), so
`BeaconNetwork.LeaseKept` supposes that none comes.

## Where the code and what is said about it differ

- The header has 18 bytes in all the code; README.md:295 of the repository says 19.
- String metrics shorter than four bytes do not come back as strings: `Payloads.StringMetricReading`.
- `IOT_LOG_BEACON_TIMEOUT_S` is commented as three beacon intervals
  (zephyr/include/iot_log_zephyr.h:38). The receiver's loop adds up to its period to every interval,
  so two beacons lost in a row are not tolerated, however short the period: `BeaconLimits.ToleranceExact`
  gives the exact bound, `BeaconLimits.TwoLossesTooMany` this case.
- The heartbeat of one cycle in sixty is commented as about 60 minutes
  (zephyr/iot_log_zephyr.c:653). It is a pair of banners, a refresh banner and the going-silent banner
  a timeout later, and two banners of one kind are more than three hours apart: `RunTheorems.HeartbeatSpacing`.
- The Arduino rate limit is by the clock's second, so up to 200 logs pass in some 1000 ms, and 300
  where the clock wraps: `RateLimit.AnySecond`, with `RateLimit.SecondLetsTwoHundredPass` and
  `RateLimit.WrapLetsThreeHundredPass` as witnesses.
- `forceDiscovery()` is commented as forcing an immediate discovery (src/ESPIoTLog.cpp:407). With an
  active listener it does so only once the clock shows 300 s (`ArduinoDiscovery.ForcedExact`), and shortly
  before the clock wraps it puts the next query off instead: `ForcedDiscovery.ForcingPutsOff`.
  `setDiscoveryInterval` sets a field that nothing reads (src/ESPIoTLog.cpp:153-155).
- The repository's README.md:412 calls `enableSystemTelemetry(TELEMETRY_WIFI_ADVANCED)`. That flag is
  1 << 8 and `TELEMETRY_CHIP_INFO` 1 << 9, but the parameter and the field are eight bits wide
  (src/ESPIoTLog.cpp:166-168, src/ESPIoTLog.h:208), so either alone leaves telemetry off:
  `SketchRuns.HighFlagsSendNothing`.
- The receiver does not compare the checksum (python/esp_iot_log_receiver.py:774); what is proved
  about it is about the function the senders compute.
- The senders append the checksum low byte first, which is not the order that leaves a zero
  residue: `CrcTheory.Residue`.

## Model

The theorems come first, by subject; from `Crc.Crc16Ccitt` on, the rows are operations, each proved to
compute the specification that the theorems are about.

| member | source | states |
|---|---|---|
| Crc.ShiftIsStep | src/ESPIoTLog.cpp:844-848 | one turn of the inner loop on the integer is one clock of the register on its bits |
| CrcTheory.ChecksumIsRemainder | esp-idf/esp_iot_log.c:57-71 | a word is the checksum if and only if it is the remainder of the preset message, times x^16, by x^16+x^12+x^5+1 |
| CrcTheory.RemainderUnique | esp-idf/esp_iot_log.c:57-71 | quotient and remainder by the generator are unique |
| CrcTheory.FeedInjective | zephyr/iot_log_zephyr.c:57-71 | different registers stay different whatever is clocked in |
| CrcTheory.BurstDetected | zephyr/iot_log_zephyr.c:57-71 | two messages of one length that differ only inside some sixteen consecutive bits have different checksums |
| CrcTheory.OddFlipsDetected | zephyr/iot_log_zephyr.c:57-71 | so have two that differ in an odd number of bits |
| CrcTheory.MissedIff | zephyr/iot_log_zephyr.c:57-71 | two messages of one length share a checksum if and only if the generator divides their difference |
| CrcTheory.Residue | zephyr/iot_log_zephyr.c:259-262 | appended high byte first the checksum drives the register to zero; in the senders' order only if its two bytes are equal |
| Wire.AcceptIff | python/esp_iot_log_receiver.py:744-774 | exactly which datagrams the receiver takes, and as what: magic, not a beacon, long enough for the length it states; any checksum, any trailing bytes |
| Wire.PacketLayout | zephyr/iot_log_zephyr.c:211-262 | where each byte of a packet lies: magic number, version, device, time, type, length, payload, checksum low byte first |
| Receiver.ReadingIff | python/esp_iot_log_receiver.py:741-772 | a datagram is shown if and only if its first 1024 bytes hold a header with the magic number and not the beacon's type, the payload of the length stated, and two bytes more |
| Payloads.IntMetricReadIff | python/esp_iot_log_receiver.py:269-282 | exactly these payloads read as this integer metric: a length byte, the name, four bytes in two's complement, low byte first |
| Payloads.StringMetricReadIff | python/esp_iot_log_receiver.py:269-282 | exactly these payloads read as this string metric |
| CrcTheory.MessageBitAt | zephyr/iot_log_zephyr.c:57-71 | the order in which the checksum takes the bits: byte by byte, highest bit first |
| Wire.RoundTrip | python/esp_iot_log_receiver.py:741-772 | the receiver recovers every header field and the payload of every packet, whatever trails it |
| Wire.BeaconRecognised | zephyr/iot_log_zephyr.c:160-176 | a device takes a packet for a beacon if and only if its type is 0xFF |
| Payloads.IntMetricRoundTrip | python/esp_iot_log_receiver.py:269-277 | every 32-bit integer metric is read back as itself |
| Payloads.StringMetricReading | python/esp_iot_log_receiver.py:269-282 | what a string metric is read back as, by its length |
| Payloads.StringMetricRoundTripIff | python/esp_iot_log_receiver.py:273-282 | it is read back as itself if and only if it has at least four bytes |
| Payloads.MetricsCollideIff | src/ESPIoTLog.cpp:370-404 | exactly when an integer and a string metric are the same bytes |
| Receiver.EveryPacketRead | python/esp_iot_log_receiver.py:704-776 | a packet of any size a sender permits passes the 1024-byte receive whole and is shown with every field as sent |
| FrameQueue.SingleConsumerSafe | zephyr/log_backend_iot.c:170-246 | one draining thread, any interleaving: drained is a prefix of queued, no put and no peek is cut, a header get yields a header, a text get that frame's whole text |
| FrameQueue.QuietRing | zephyr/log_backend_iot.c:170-246 | between calls the ring holds exactly the undrained frames |
| FrameQueue.HeaderAlone | zephyr/log_backend_iot.c:220-222 | a header whose text is not yet in never passes the second size test |
| FrameQueue.NobodyStuck | zephyr/log_backend_iot.c:170-246 | in every state a call under way and every drain have a step to take; a full ring ends the call with nothing put |
| FrameQueue.PartFrameReachable | zephyr/log_backend_iot.c:220-222 | that test is needed: for every message some interleaving meets a header alone |
| FrameQueue.DrainRun | zephyr/log_backend_iot.c:208-246 | an undisturbed drain hands on every frame and empties the ring |
| FrameQueue.TwoConsumersMisframe | zephyr/iot_log_zephyr.c:351-354 | with two draining threads, for any two messages, the first of three bytes or more, a run drains text that starts inside one frame and ends in the next header |
| LeaseHistory.ExpireGood | zephyr/iot_log_zephyr.c:658-693 | expiry keeps the lease in step with its history and the history sound |
| LeaseHistory.RefreshGood | zephyr/iot_log_zephyr.c:706-732 | a refresh and its banner keep the lease in step with its history and the history sound |
| ListenerLease.EmptyHides | zephyr/iot_log_zephyr.c:152-158 | an empty datagram hides whatever is queued behind it from a poll |
| DeviceRuns.RunGood | zephyr/iot_log_zephyr.c:591-734 | every run of phases, sends and log calls, in any order, keeps the lease in step with its history and the history sound |
| DeviceRuns.PollIsRun | zephyr/iot_log_zephyr.c:591-734 | an undisturbed poll is a run of its phases |
| PollRuns.RunRefines | zephyr/iot_log_zephyr.c:591-734 | a run with whole polls is a run of phases |
| DeviceEffects.StepExact | zephyr/iot_log_zephyr.c:591-734 | join, beacon, turn of the drain, expiry, refresh, send and log call each do exactly what is written out for them, at the end of every run of phases: conditions, times and counters as numbers, the ring as bytes, each packet by its contents |
| DeviceEffects.PollExact | zephyr/iot_log_zephyr.c:591-734 | a poll in a run of polls is one such join, one step for each datagram up to the first empty one, one turn for each whole frame until none is left, one expiry and one refresh |
| DeviceEffects.RefreshExact | zephyr/iot_log_zephyr.c:706-713 | in every timed run an idle, joined, attached device whose re-subscription succeeds 120 s or more after the time recorded at its expiry becomes active with both times set, and says so in its history; in every other state nothing changes |
| DeviceEffects.ExpiryIsAnnounced | zephyr/iot_log_zephyr.c:664-693 | in the announced cycles the banner's event is followed by its packet if the device is attached, read by the receiver as that info text, and then by the expiry; in the others by the expiry alone |
| DeviceEffects.RefreshIsAnnounced | zephyr/iot_log_zephyr.c:711-729 | likewise after a re-subscription |
| DeviceEffects.SendShown | zephyr/iot_log_zephyr.c:194-279 | whatever is sent attached through the open gate is one packet more, which the receiver shows with device, time, type and payload |
| RunTheorems.SendSafety | zephyr/iot_log_zephyr.c:194-279 | every packet of every run, banners and sends between the phases of a poll included, leaves attached, while a listener is assumed, and within the timeout and one poll gap of its last sign |
| RunTheorems.ActiveSpell | zephyr/iot_log_zephyr.c:658-664 | an expiry comes after the timeout and within one poll gap of it |
| RunTheorems.DutyCycle | zephyr/iot_log_zephyr.c:695-713 | activations are more than 180 s apart, 210 s once a beacon has been heard, and only the first is the join's |
| RunTheorems.NoEarlyRefresh | zephyr/iot_log_zephyr.c:706-709 | in every state of every run a joined, idle device refreshes only 120 s after its recorded expiry; the shortcut for "never re-subscribed" never fires |
| RunTheorems.BannerThrottle | zephyr/iot_log_zephyr.c:664-732 | how many going-silent and refresh banners any number of beacon-free cycles attempts |
| RunTheorems.HeartbeatSpacing | zephyr/iot_log_zephyr.c:645-732 | past the first two cycles: a refresh banner and the going-silent banner of the same spell are a timeout apart; a going-silent banner and a later refresh banner 59 cycles and a refresh period at least; any other two banners more than three hours |
| QueueTheorems.ChunkingIrrelevant | zephyr/log_backend_iot.c:77-88 | the queued text is the first 499 bytes that are neither CR nor LF, however the formatter cuts its output up |
| QueueTheorems.DrainFrames | zephyr/log_backend_iot.c:208-246 | a drain passes on every waiting frame, in order, uncut, and counts each once |
| QueueTheorems.ProcessHolds | zephyr/log_backend_iot.c:92-183 | a log call adds at most its own frame at the end |
| QueueTheorems.PollPassesOn | zephyr/iot_log_zephyr.c:634-643 | a poll empties the ring before it considers expiry |
| QueueTheorems.LostOnlyByRadio | zephyr/iot_log_zephyr.c:634-643 | what a poll loses of the waiting frames, and that it is nothing if and only if every frame finds the device attached and the socket taking it |
| QueueTheorems.QueueConserved | zephyr/log_backend_iot.c:46-52 | in every state of every run of phases, modulo 2^32, every call is in one counter, and every queued frame waits, is gone or lost |
| QueueTheorems.FirstInFirstOut | zephyr/log_backend_iot.c:170-246 | in every run of phases what was put into the ring is what was taken out followed by what waits |
| QueueTheorems.EachTakesItsTurn | zephyr/log_backend_iot.c:208-246 | in every run of phases the k-th turn of a drain is that of the k-th frame queued: its packet goes out if and only if the gate is open and the device attached, and it counts as sent if and only if it is taken whole |
| DeviceEffects.PutInExact | zephyr/log_backend_iot.c:92-183 | when a log call adds a frame to the queue, and that it is the call's level, 5 if not 1 to 4, and the first 499 bytes of its text but line breaks |
| DeviceEffects.OnlyCleanTexts | zephyr/log_backend_iot.c:135-160 | no queued text opens with "[x] Mac" or "[x] MeshForwarder", is empty, longer than 499 bytes or has a line break in it |
| DeviceEffects.BreaksLeftOut | zephyr/log_backend_iot.c:77-88 | bytes 10 and 13 are left out of a text wherever they stand, and no others |
| QueueTheorems.EndToEnd | zephyr/log_backend_iot.c:92-246 | a message queued anywhere in any run behind n others is taken by the next poll at turn n, its packet in the history between theirs and those of later messages if attached then, counted as sent if and only if taken whole, and read by the receiver as its level and its text |
| QueueTheorems.DrainedBeforeExpiry | zephyr/iot_log_zephyr.c:634-643 | with log calls between polls only, a non-empty ring means an assumed listener |
| QueueTheorems.Stranded | zephyr/iot_log_zephyr.c:634-693 | a message queued between a poll's drain and its expiry is left in the ring of a silent device, and the next poll without a beacon throws it away unsent |
| BeaconNetwork.EveryStep | zephyr/iot_log_zephyr.c:141-188 | every step of receiver, network and device keeps the next beacon in sight of a confirmed lease |
| BeaconNetwork.LeaseKept | zephyr/iot_log_zephyr.c:658-693 | in every run a device that has accepted a beacon keeps its listener, if losses, delay and poll fit into 90 s |
| BeaconNetwork.DeviceRunOf | zephyr/iot_log_zephyr.c:591-734 | the device of the network is in a run of phases, so the theorems about those hold of it |
| BeaconLimits.LeaseLost | python/esp_iot_log_receiver.py:680-720 | if they do not fit, by however little, some run loses it |
| BeaconLimits.ToleranceExact | zephyr/include/iot_log_zephyr.h:37-44 | so the lease is safe in all runs if and only if (losses + 1) (30 s + loop period) + delay + poll duration is at most 90 s |
| BeaconLimits.TwoLossesTooMany | zephyr/include/iot_log_zephyr.h:38 | for every loop period, delay and poll duration, two losses in a row can cost the listener |
| NetworkQueue.DeviceMoves | zephyr/iot_log_zephyr.c:591-734 | each step of the clocked system does to the device exactly what is written out for the operation it stands for |
| NetworkQueue.GateDropsNothing | zephyr/iot_log_zephyr.c:206-209 | within the tolerance, a device that has accepted a beacon loses no queued frame to its gate: the k-th turn is the k-th frame's, lost if and only if the device is detached or the socket does not take it |
| RateLimit.SpanBound | src/ESPIoTLog.cpp:337-357 | in any run, between any two moments, at most 100 logs pass for each second the clock shows and 100 for each reset |
| RateLimit.PerClockSecond | src/ESPIoTLog.cpp:337-357 | at most 100 in a clock second without a reset |
| RateLimit.AnySecond | src/ESPIoTLog.cpp:337-357 | at most 200 in any 1000 ms, 300 across a wrap |
| RateLimit.FirstHundredPass | src/ESPIoTLog.cpp:337-357 | and no fewer: of the attempts in a fresh second the first hundred pass |
| RateLimit.SecondLetsTwoHundredPass | src/ESPIoTLog.cpp:337-344 | 200 do pass within 2 ms |
| RateLimit.WrapLetsThreeHundredPass | src/ESPIoTLog.cpp:337-344 | 300 do pass within 298 ms around a wrap |
| RateLimit.EachResetLetsAHundredPass | src/ESPIoTLog.cpp:823-829 | each reset lets another hundred pass in the same millisecond |
| Backoff.ArduinoClosedForm | src/ESPIoTLog.cpp:448-458 | after k failures the interval is the least of 60 s doubled k-1 times and 300 s |
| Backoff.IdfClosedForm | esp-idf/esp_iot_log.c:302-309 | from the default interval, the least of 60 s doubled k times and 300 s |
| Backoff.AnyStart | esp-idf/esp_iot_log.c:302-309 | from any 32-bit interval, one failure brings it into range and four to 300 s, though doubling wraps |
| Backoff.TotalFromZero | src/ESPIoTLog.cpp:431-459 | the sum of the intervals of k failures |
| ArduinoDiscovery.ForcedExact | src/ESPIoTLog.cpp:406-409 | a forced discovery is immediate if and only if no listener is active or the clock shows 300 s |
| ArduinoDiscovery.NeverEarly | src/ESPIoTLog.cpp:431-459 | in every run, across wraps, no query comes before the interval its predecessors left behind |
| ArduinoDiscovery.NotBeforeTheSum | src/ESPIoTLog.cpp:431-459 | while nobody answers, the k-th query is no earlier than the sum of the intervals |
| ArduinoDiscovery.NeverLate | src/ESPIoTLog.cpp:431-459 | after every call of loop the last query is less than 300 s old |
| ArduinoDiscovery.LatencyBound | src/ESPIoTLog.cpp:431-492 | a listener that comes or goes and stays so is known after every call from 299999 ms on |
| ArduinoDiscovery.StaleUntilThen | src/ESPIoTLog.cpp:438-441 | and, loop being called every millisecond, one that goes can go unnoticed until a millisecond before |
| ForcedDiscovery.LatencyBound | src/ESPIoTLog.cpp:406-492 | with forced discoveries anywhere in the run a change is known after every call 599998 ms and one gap between calls later |
| ForcedDiscovery.ForcingPutsOff | src/ESPIoTLog.cpp:406-409 | and for every gap that loop may leave, a discovery forced shortly before the clock wraps does put it off until a millisecond before |
| IdfDiscovery.NeverEarly | esp-idf/esp_iot_log.c:288-314 | from the end of a query to the next its interval passes in full |
| IdfDiscovery.NotBeforeTheSum | esp-idf/esp_iot_log.c:288-314 | while nobody answers, the k-th query is no earlier than the sum of the intervals, for any configured one |
| IdfDiscovery.LatencyBound | esp-idf/esp_iot_log.c:158-179 | a change is known after every poll from 300 s and one query's duration on |
| ForcedIdfDiscovery.LatencyBound | esp-idf/esp_iot_log.c:396-400 | in ESP-IDF forced discoveries do not weaken the bound |
| SketchEffects.StepExact | src/ESPIoTLog.cpp:300-565 | at the end of every run, with the settings in force, each call does exactly what is written out for it: a text the limiter passes, a metric with a name and a record that is due add one datagram, which the receiver shows with device, clock and content, counted as sent if and only if written whole and ended, and otherwise as dropped |
| SketchEffects.SendExact | src/ESPIoTLog.cpp:495-565 | a message goes out if and only if somebody listens and it fits 1024 bytes, and is counted once |
| SketchEffects.FilterExact | src/ESPIoTLog.cpp:300-309 | a text comes to the limiter if and only if a listener is active, its level is at most the threshold in force and its bit of the mask is set; else it does nothing |
| SketchEffects.MasksExact | src/ESPIoTLog.cpp:300-309 | with mask 0xFF exactly the levels up to the threshold come to it, with one bit set only that level, if at most the threshold |
| SketchEffects.LastSettings | src/ESPIoTLog.cpp:124-130 | the threshold and the mask in force are those set last |
| SketchRuns.TextsPerSecond | src/ESPIoTLog.cpp:300-368 | in any run of a sketch, whatever it logs and however it changes its settings, at most 100 text packets leave for each second the clock shows and 100 for each reset |
| SketchRuns.DiscoveryOfRun | src/ESPIoTLog.cpp:431-492 | nothing but loop and forceDiscovery moves the discovery state, forced discoveries included |
| SketchRuns.QueriesBackOff | src/ESPIoTLog.cpp:431-459 | in any run of a sketch without forced discovery, while nobody answers, the k-th query is no earlier than the sum of the intervals |
| SketchRuns.KnownInTime | src/ESPIoTLog.cpp:431-492 | in any run of a sketch a listener that comes or goes and stays so is known after every call of loop from 299999 ms on; with forced discoveries, from 599998 ms and one gap on |
| SketchRuns.SilentWithoutListener | src/ESPIoTLog.cpp:329-335 | a sketch whose queries are never answered sends nothing |
| SketchRuns.HighFlagsSendNothing | src/ESPIoTLog.cpp:166-168 | a sketch that enables telemetry only by flags above the eighth bit never sends a record |
| SketchRuns.EveryMessageCounted | src/ESPIoTLog.cpp:495-565 | modulo 2^32 sent and dropped add up to the messages that passed the filters: texts, metrics, telemetry and crash records |
| IdfEffects.StepExact | esp-idf/esp_iot_log.c:288-400 | at the end of every run each call does exactly what is written out for it: a message that passes its tests adds one unicast datagram if that is configured and one multicast one if a listener is known, each shown by the receiver with device, time and content, and counts as sent if and only if one was taken whole |
| IdfEffects.SendExact | esp-idf/esp_iot_log.c:74-155 | so does every message handed to the sender; one that nobody could receive or that is too long is dropped |
| IdfEffects.ForcedExact | esp-idf/esp_iot_log.c:396-400 | after a forced discovery the next poll always searches, and what is known then is what it found |
| IdfRuns.DiscoveryOfRun | esp-idf/esp_iot_log.c:288-314 | nothing but polls and forced discoveries moves the discovery state |
| IdfRuns.KnownInTime | esp-idf/esp_iot_log.c:288-314 | in any run of the port, forced discoveries or not, a change is known after every poll from 300 s and one query's duration on |
| IdfRuns.NoMulticastWithoutListener | esp-idf/esp_iot_log.c:138-144 | without mDNS, or without an answer, nothing is ever multicast |
| IdfRuns.NothingDropped | esp-idf/esp_iot_log.c:74-88 | a run whose sockets take every packet whole drops nothing: the size limit refuses no public call |
| Compatibility.PacketInjective | src/ESPIoTLog.cpp:507-551 | two packets are the same bytes if and only if device, time, type and payload agree |
| Compatibility.TextPacketsAgreeIff | src/ESPIoTLog.cpp:567-581 | Arduino and the C ports send the same packet for a log call if and only if Arduino does not cut the text |
| Compatibility.PublicPayloadsFit | src/ESPIoTLog.cpp:411-420 | no public call builds more than 532 bytes, records included, so none is refused or cut for its size |
| Compatibility.ArduinoTextRead | python/esp_iot_log_receiver.py:183-192 | an Arduino log line is shown with its level and its text as cut |
| Compatibility.IntMetricRead | python/esp_iot_log_receiver.py:269-282 | an integer metric of any sender is shown as sent |
| Compatibility.CopiesReadAlike | esp-idf/esp_iot_log.c:130-144 | the unicast and the multicast copy of a message are shown alike |
| Compatibility.RecordRead | python/esp_iot_log_receiver.py:194-267 | telemetry and crash records arrive whole; the extended half of a telemetry record, 85 bytes long, is never decoded |
| Crc.Crc16Ccitt | zephyr/iot_log_zephyr.c:57-71 | the 16-bit byte loop computes the bit-serial register's value for the bytes given, most significant bit first, preset 0xFFFF |
| Crc.PythonCrc | python/esp_iot_log_receiver.py:89-97 | the loop over an unbounded integer masked after every shift computes the same value |
| Wire.PutLittleEndian | esp-idf/esp_iot_log.c:96-117 | the shift-and-store loop writes the value's low bytes, least significant first, and nothing else |
| Wire.PutHeader | esp-idf/esp_iot_log.c:92-117 | the header fields go out in the order and width the parser reads |
| Wire.Serialise | zephyr/iot_log_zephyr.c:211-262 | the C ports' buffer holds the packet for these fields, checksum included |
| Wire.SerialiseArduino | src/ESPIoTLog.cpp:501-551 | the Arduino class's buffer, its checksum copied from memory, holds the same packet |
| Wire.BuildBeaconPacket | python/esp_iot_log_receiver.py:76-98 | the beacon is a packet of device 0 with no payload, its CRC the one the devices compute |
| Payloads.FillIntMetric | esp-idf/esp_iot_log.c:361-371 | the buffer filled by shifts of a signed value holds the payload, name cut to 255 bytes |
| Payloads.FillStringMetric | src/ESPIoTLog.cpp:391-401 | the buffer holds name and value, each cut to 255 bytes, with its length |
| Receiver.LogReceiver.HandleMessage | python/esp_iot_log_receiver.py:741-781 | what is shown for a datagram, and that the counters move only then |
| Receiver.LogReceiver.SendBeacon6 | python/esp_iot_log_receiver.py:680-691 | a beacon is handed over if and only if the last is 30 s old; a failed send does not count as one |
| Receiver.LogReceiver.ListenTurn | python/esp_iot_log_receiver.py:701-720 | one turn of the loop shows the readable datagrams' messages in order, whichever receives raise, counts them, renews the group when due, and sends the beacon when due; nothing of this if select raises |
| ByteRing.Ring.Put | zephyr/log_backend_iot.c:176-177 | appends as many bytes as fit to the ring's contents, across the array's end |
| ByteRing.Ring.Peek | zephyr/log_backend_iot.c:213 | returns the front of the contents and changes nothing |
| ByteRing.Ring.Get | zephyr/log_backend_iot.c:225-230 | returns and removes the front of the contents |
| ZephyrDevice.IotLog.SendMessage | zephyr/iot_log_zephyr.c:194-279 | sends only attached and through an open or forced gate, the packet for the payload, and counts the outcome |
| ZephyrDevice.IotLog.SendTextForce | zephyr/iot_log_zephyr.c:284-299 | the forced text path |
| ZephyrDevice.IotLog.SendRaw | zephyr/iot_log_zephyr.c:789-810 | the raw text path, and its result |
| ZephyrDevice.IotLog.Log | zephyr/iot_log_zephyr.c:748-787 | a log call above the level does nothing, any other is sent or dropped as a text |
| ZephyrDevice.IotLog.Metric | zephyr/iot_log_zephyr.c:812-836 | the integer metric path |
| ZephyrDevice.IotLog.MetricStr | zephyr/iot_log_zephyr.c:838-867 | the string metric path |
| ZephyrDevice.IotLog.IsActive | zephyr/iot_log_zephyr.c:740-746 | active means initialised, attached, and always on or leased |
| ZephyrDevice.IotLog.DeferredJoin | zephyr/iot_log_zephyr.c:601-625 | the first successful join assumes a listener |
| ZephyrDevice.IotLog.CheckForBeacons | zephyr/iot_log_zephyr.c:141-188 | the receive loop handles what is pending up to an empty datagram, each beacon renewing the lease |
| ZephyrDevice.IotLog.ExpireListener | zephyr/iot_log_zephyr.c:658-693 | the lease ends only past its timeout, its banner forced out before the flag falls |
| ZephyrDevice.IotLog.RefreshSubscription | zephyr/iot_log_zephyr.c:706-732 | an idle, joined, attached device re-subscribes 120 s after expiry and assumes a listener |
| ZephyrDevice.LogBackend.CharOut | zephyr/log_backend_iot.c:77-88 | keeps bytes other than CR and LF while there is room |
| ZephyrDevice.LogBackend.Process | zephyr/log_backend_iot.c:92-183 | a log message is counted in one counter and queued as one frame or not at all; without an initialised sender it counts as inactive |
| ZephyrDevice.LogBackend.Enqueue | zephyr/log_backend_iot.c:170-182 | two puts append one whole frame, or none if it does not fit |
| ZephyrDevice.LogBackend.Drain | zephyr/log_backend_iot.c:208-246 | terminates, having sent every whole frame in the ring, whatever the ring held |
| ZephyrDevice.LogBackend.TakeFront | zephyr/log_backend_iot.c:224-241 | takes exactly one frame off the ring; text past 500 bytes is thrown away in pieces |
| ZephyrDevice.Poll | zephyr/iot_log_zephyr.c:591-734 | a poll is join, beacons, drain, expiry and refresh, in this order, on the device as a whole |
| ZephyrDevice.IotLog.Init | zephyr/iot_log_zephyr.c:439-566 | a second call changes nothing; otherwise all starts afresh but for the count of expiries; no send socket fails it, no receive socket makes the device always on |
| ZephyrDevice.IotLog.Deinit | zephyr/iot_log_zephyr.c:568-586 | the device is left uninitialised and without a listener |
| ArduinoDevice.EspIotLog.Begin | src/ESPIoTLog.cpp:55-114 | begin succeeds again without effect; otherwise it needs a valid address, mDNS and a socket, and then greets and reports a crash |
| ArduinoDevice.EspIotLog.SendLogMessage | src/ESPIoTLog.cpp:495-565 | one packet out or one drop counted |
| ArduinoDevice.EspIotLog.FormatLogMessage | src/ESPIoTLog.cpp:567-581 | a text is cut to the platform's message size |
| ArduinoDevice.EspIotLog.PassRateLimit | src/ESPIoTLog.cpp:337-357 | the rate-limiting block moves the limiter as the run theorems assume |
| ArduinoDevice.EspIotLog.Logf | src/ESPIoTLog.cpp:300-368 | level, mask, listener and limit decide, in this order, whether a text is sent |
| ArduinoDevice.EspIotLog.LogIntMetric | src/ESPIoTLog.cpp:370-384 | integer metrics pass no rate limit and count no drop without a listener |
| ArduinoDevice.EspIotLog.LogStringMetric | src/ESPIoTLog.cpp:386-404 | likewise string metrics |
| ArduinoDevice.EspIotLog.ForceDiscovery | src/ESPIoTLog.cpp:406-409 | resets the time of the last query and the backoff |
| ArduinoDevice.EspIotLog.ResetRateLimit | src/ESPIoTLog.cpp:823-829 | puts the limiter back to its initial state |
| ArduinoDevice.EspIotLog.DiscoverListener | src/ESPIoTLog.cpp:469-492 | a change of state is itself logged through the filters and the limit |
| ArduinoDevice.EspIotLog.Loop | src/ESPIoTLog.cpp:431-467 | a call of loop is one step of the discovery runs, followed by the telemetry that is due |
| ArduinoDevice.EspIotLog.SendTelemetry | src/ESPIoTLog.cpp:411-420 | a record is sent if telemetry is on and a listener active |
| ArduinoDevice.EspIotLog.EnableSystemTelemetry | src/ESPIoTLog.cpp:166-168 | telemetry is on if and only if one of the low eight bits of the flags is set |
| ArduinoDevice.EspIotLog.SetLogLevel | src/ESPIoTLog.cpp:124-126 | the level threshold changes and nothing else |
| ArduinoDevice.EspIotLog.SetLogMask | src/ESPIoTLog.cpp:128-130 | the level mask changes and nothing else |
| ArduinoDevice.EspIotLog.EnableCrashLogging | src/ESPIoTLog.cpp:855-865 | crash reports are turned on or off, and that is logged |
| ArduinoDevice.EspIotLog.CheckAndLogCrashes | src/ESPIoTLog.cpp:867-891 | crash data found is logged, its record sent to an active listener, a count of several logged |
| IdfDevice.IotLog.constructor | esp-idf/esp_iot_log.c:187-201 | a configured interval of 0 means 60 s |
| IdfDevice.IotLog.SendMessage | esp-idf/esp_iot_log.c:74-155 | a message goes to each open path and counts as sent if one took it whole |
| IdfDevice.IotLog.Log | esp-idf/esp_iot_log.c:321-354 | the level, then the paths, decide whether a text is sent |
| IdfDevice.IotLog.IntegerMetric | esp-idf/esp_iot_log.c:356-374 | the integer metric path |
| IdfDevice.IotLog.StringMetric | esp-idf/esp_iot_log.c:376-394 | the string metric path |
| IdfDevice.IotLog.ForceDiscovery | esp-idf/esp_iot_log.c:396-400 | resets the time of the last query and the backoff |
| IdfDevice.IotLog.Poll | esp-idf/esp_iot_log.c:288-314 | a poll is one step of the discovery runs, none without mDNS |

## Left out

- Sockets, mDNS, OpenThread calls, the IGMP and Zephyr group re-joins, mDNS re-registration: their outcomes are parameters.
- printf formatting, UTF-8 decoding, colours, JSON, `__str__` and the output file: text is a byte sequence without NUL, already formatted. The banners of a Zephyr device are any non-empty text of a 96-byte buffer.
- Serial mirrors and the local `LOG_INF` lines: they do not reach the network from where they are called; as log messages they are log calls of a run like any other.
- Crash handler, core dumps and reset reasons: hardware registers and a one-loop checksum. What the Arduino class finds of them at start is a parameter; ESP-IDF reports a core dump by log calls.
- Telemetry: collection is sensor reads, so a record is any 85 bytes; the receiver's decoding of a telemetry or crash record is kept as the record, with the size tests that decide whether it is decoded.
- `BacktraceDecoder`, argument parsing, the status line of the work handler, examples, Kconfig and CMake files.
- The list of transport sources in `process()`: one flag says whether the message's source is on it. The OpenThread region test is modelled.
- Zephyr's `ring_buf` and its `LOG_LEVEL` numbers (1 to 4) are not part of the repository; the ring is modelled by what its documented operations do, its indices without the wrap of 32 bits.
- The packet buffer of `send_message` is static in the Zephyr port; here each call has its own.
- Runs across a deinitialisation, and two receivers at once.
- Receiver.LogReceiver.ListenTurn: leaves out the mDNS re-registration that follows the beacon.
- ZephyrDevice.IotLog.Init: leaves out socket options, the device's name and starting the work handler.
- Duplicated beacons: the network delivers each at most once.
- The mutexes: calls of the sender that they order are atomic.
- Arduino's level 0 ("none"), for which `1 << (level - 1)` has no meaning in C++.
- `FrameQueue` treats one ring operation as one step; interleavings inside `ring_buf_put` and `ring_buf_get` are not modelled.
- Authentication of beacons and other security questions.
