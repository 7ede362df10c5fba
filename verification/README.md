# Verified model of the Savantix DALI edge controller

This project models the portable core of the DALI edge controller firmware in Dafny and
proves what that core is for: damaged frames and damaged history records are recognised,
requests keep their order and their owners, retries are bounded, presence reports follow
from what the bus answered, polling is fair and rate-limited, alarms live an orderly life,
and the one-pass statistics are exact.

Code that changes fields in place is a class whose methods are proved equal to a function
of the old state; the results are lemmas about those functions, over every input, every
run and every behaviour of the bus.

| file | part of the firmware |
|---|---|
| `Crc16`, `CrcPeriod`, `CrcDetection`, `CrcNumeric` | the 16-bit check (reflected polynomial 0xA001, initial value 0xFFFF), its algebra, and the same check on plain numbers |
| `FrameCodec` | the C6 frame codec |
| `EventHistory` | the ring of checked event records |
| `CommandQueue` | the 64-entry priority queue |
| `DaliBus`, `Transaction`, `Quality` | an arbitrary bus, the retrying transaction service, the quality counters |
| `Pipeline` | the protocol pipeline, the query client and the control service |
| `Presence`, `DeviceManager`, `Discovery`, `Capabilities`, `DeviceRuns`, `Readings` | one address, the registry and its scans, whole runs of scans, one capability, runs of scans and probes mixed, the readings that probes fill in |
| `Scheduler`, `SchedulerRuns` | the polling scheduler and its runs |
| `Alarms`, `AlarmRuns`, `AlarmLifeCycle` | the event manager, its refinement of a map, the life of one alarm |
| `FaultPersistence`, `LightHealth` | fault hysteresis and the health score |
| `RollingBaseline`, `TrendSeries` | one-pass statistics and the trend ring |
| `Sequences`, `Wrappers` | laws of concatenation, optional values |

## How the world is modelled

- A 16-bit register is its sequence of 16 bits, least significant first, so that shifting,
  masking and exclusive-or are operations on bits; bytes are numbers below 256. The check
  polynomial is that of section 6.2.2 of MODBUS over Serial Line V1.02.
- The physical layer, the delay provider and the jitter source are three arbitrary functions
  of everything that has happened on the bus so far. A statement for all environments is a
  statement for all behaviours of the three. Jitter is assumed to stay within the bound it
  is asked for only where a lemma says so (`JitterBounded`).
- Times and 64-bit counters are natural numbers. The 8-bit saturation of the persistence
  counters, the 32-bit saturation of the quality counters and the 32-bit wrap of sequence
  and event numbers are written out.
- Floating-point quantities are real numbers.

## What the code does that one might not expect

Each of these is proved as stated in the table below.

- Two-bit damage goes unseen exactly when the two bits are a multiple of 32767 apart; no
  frame is long enough for that, so the codec also rejects all three-bit damage.
- A busy bus, a full queue and hardware faults count as missed presence checks; only loss of
  bus power is exempt. A client the transaction service rejects as misconfigured never reaches
  the bus and never finds a device, yet each of its scans counts as a miss at every address.
- A collision overwrites Missing, so Missing and Recovered reports strictly alternate exactly
  on those histories of results in which no collision on a device that has gone quiet is
  followed by a miss that gives the device up again.
- A capability given up after two unanswered probes is never asked for again.
- `query` and `submit` process the head of the queue, which is their own request exactly when
  nothing of equal or higher urgency was waiting.
- A silent re-raise overwrites the stored event, its number and severity included. An
  activation therefore escalates as often as the raised severity rises, which is not bounded
  by the three levels when severities fall in between.
- A reminder interval of zero never drains: the same alarm is due again at once.
- Reconfiguring an address makes its status poll due at once, whatever its interval. A search
  finds a kind ready before its shortest interval is over exactly for a status poll whose
  address was configured anew since the latest completion.
- The persistence flags count consecutive samples, not a share of a window.
- The health score never falls gradually: the gradual branch always lands on its target. It
  stays within 0 and 100 exactly when the recovery step is not negative or no weight deducts
  anything; nothing enforces either.
- The exponentially weighted average folds in slot order. That is the order of arrival only
  until the ring of 1024 wraps, and then only when a turn has just been completed.
- The quality counters stop adding up once the total saturates, unless every result ever
  recorded fell into one category.

## Model

| member | source | states |
|---|---|---|
| Crc16.StepRegister | components/c6_interface/c6_interface.cpp:12-16 | the inner loop is the given number of single-bit register steps |
| Crc16.ComputeCrc | components/c6_interface/c6_interface.cpp:7-19 | the nested loops over bytes and bits compute the register function that all laws below are about |
| CrcNumeric.ChecksumIsNumber | components/c6_interface/c6_interface.cpp:7-19 | for every byte string the check word of the bit model is the number that the plain recurrence gives from 0xFFFF: take in a byte, then eight times halve and, if it was odd, add 0xA001 bit by bit; of no bytes it is 0xFFFF |
| Crc16.UpdateIsSerial | components/c6_interface/c6_interface.cpp:10-17 | absorbing whole bytes equals feeding the message one bit at a time, least significant bit first |
| Crc16.StepsXor | components/c6_interface/c6_interface.cpp:12-16 | any number of register steps is linear over exclusive-or |
| Crc16.StepsInjective | components/c6_interface/c6_interface.cpp:12-16 | any number of register steps loses no information |
| Crc16.SerialXor | components/c6_interface/c6_interface.cpp:7-19 | the register over a bitwise sum of messages is the sum of the registers |
| CrcPeriod.RepeatDistance | components/c6_interface/c6_interface.cpp:12-16 | the bit sequence of the polynomial's large factor repeats at no distance other than multiples of 32767 |
| CrcDetection.UnitPeriod | components/c6_interface/c6_interface.cpp:12-16 | a register holding a single bit comes back to itself after exactly the multiples of 32767 steps |
| CrcDetection.InitialPeriod | components/c6_interface/c6_interface.cpp:9-16 | the start value 0xFFFF comes back to itself after exactly the multiples of 32767 steps |
| CrcDetection.LeadingZerosNoticed | components/c6_interface/c6_interface.cpp:7-19 | zero bytes put in front of any message leave its check word as it was if and only if their number is a multiple of 32767, which a start value of zero would not achieve |
| CrcDetection.PairTrace | components/c6_interface/c6_interface.cpp:7-19 | two flipped bits cancel in the register if and only if their distance is a multiple of 32767, for strings of any length |
| CrcDetection.CrcParity | components/c6_interface/c6_interface.cpp:7-19 | the parity of the check word is the parity of the message, for every message |
| CrcDetection.BurstLeavesTrace | components/c6_interface/c6_interface.cpp:7-19 | a nonzero error within 16 consecutive bits never leaves the register unchanged |
| CrcDetection.PairLeavesTrace | components/c6_interface/c6_interface.cpp:7-19 | nor do two flipped bits in a string of at most 32767 bits |
| CrcDetection.CodewordIff | components/c6_interface/c6_interface.cpp:35-39 | a body followed by two check bytes drives the register to zero if and only if they are the body's own check word |
| CrcDetection.ChecksumsDiffer | components/c6_interface/c6_interface.cpp:7-19 | equal-length messages whose difference is a 16-bit burst, odd, or at most three bits (within 32767) have different check words |
| FrameCodec.Encode | components/c6_interface/c6_interface.cpp:21-43 | encoding fails exactly for payloads over 240 bytes, otherwise writes the wire form and touches nothing else in the buffer |
| FrameCodec.WireLayout | components/c6_interface/c6_interface.cpp:21-43 | the wire form byte by byte: 0x7E, version, type, sequence and length low byte first, the payload, the check word of all of these as a plain number, 0x7F |
| FrameCodec.WriteBody | components/c6_interface/c6_interface.cpp:27-34 | start marker, header fields low byte first, then the payload, leaving the rest of the buffer alone |
| FrameCodec.Decode | components/c6_interface/c6_interface.cpp:45-64 | the method agrees with the decoding function on every pointer and length, and leaves the frame alone on failure |
| FrameCodec.RoundTrip | components/c6_interface/c6_interface.cpp:21-64 | decoding an encoded frame restores version, type, sequence, length and payload, and keeps the old payload tail |
| FrameCodec.AcceptedIsWire | components/c6_interface/c6_interface.cpp:45-64 | every byte string that decodes is the encoding of what it decodes to |
| FrameCodec.AcceptedIsCodeword | components/c6_interface/c6_interface.cpp:54-57 | between the markers of an accepted string the register ends at zero |
| FrameCodec.AcceptedApart | components/c6_interface/c6_interface.cpp:45-57 | no two acceptable strings of one length differ detectably |
| FrameCodec.DamagedFrameRejected | components/c6_interface/c6_interface.cpp:45-57 | for every encodable frame, same-length corruption within 16 consecutive wire bits, of an odd number of bits, or of at most three bits, anywhere including length field, check word and markers, is rejected |
| EventHistory.EventHistory.Append | components/local_storage/local_storage.cpp:22-30 | the ring holds, oldest first, its old contents without the oldest of 128, and then the event with its own bytes and the number the plain recurrence gives for them |
| EventHistory.EventHistory.Recover | components/local_storage/local_storage.cpp:32-41 | recovery returns the intact records among the contents, in order |
| EventHistory.EventHistory.CorruptNewest | components/local_storage/local_storage.cpp:43-47 | the aid turns the newest check word into its complement to 0xFFFF and changes nothing else |
| EventHistory.AppendsKeepNewest | components/local_storage/local_storage.cpp:22-30 | after any sequence of appends the ring is the last 128 stamped events in append order |
| EventHistory.AppendsRecovered | components/local_storage/local_storage.cpp:22-41 | every stored record is intact and recovery returns all of them |
| EventHistory.RecoveredAsAppended | components/local_storage/local_storage.cpp:22-41 | after n appends recovery returns min(n, 128) records; the i-th has the bytes of the event appended at n - min(n, 128) + i and their check word as a plain number |
| EventHistory.IntactIsCodeword | components/local_storage/local_storage.cpp:22-24 | the bytes of an intact record followed by its check word drive the register to zero |
| EventHistory.DamagedNotIntact | components/local_storage/local_storage.cpp:7-36 | any change of the check word alone shows, and so does detectable damage to the record as a whole, spread over bytes and check word in any way |
| EventHistory.UndamagedRecovered | components/local_storage/local_storage.cpp:32-41 | of intact records partly damaged, recovery returns exactly the undamaged ones in order |
| EventHistory.RecoverAfterDamage | components/local_storage/local_storage.cpp:22-41 | append anything, damage any kept records: recovery returns exactly the undamaged ones among the newest 128, in append order |
| CommandQueue.DaliCommandQueue.Enqueue | components/dali_protocol/include/dali/protocol/dali_command_queue.h:38-57 | a full queue refuses without change; otherwise the shifting loops insert after everything at least as urgent |
| CommandQueue.DaliCommandQueue.Pop | components/dali_protocol/include/dali/protocol/dali_command_queue.h:59-69 | hands out the head and keeps the rest in order |
| CommandQueue.InsertedIsPush | components/dali_protocol/include/dali/protocol/dali_command_queue.h:43-55 | inserting into the array is appending to the lane of that priority |
| CommandQueue.HeadIsServed | components/dali_protocol/include/dali/protocol/dali_command_queue.h:59-69 | popping the array is taking the oldest of the most urgent nonempty lane |
| CommandQueue.QueueRefinesLanes | components/dali_protocol/include/dali/protocol/dali_command_queue.h:38-69 | over every run the array answers exactly as four first-in first-out lanes served in priority order |
| CommandQueue.ArrivalOrder | components/dali_protocol/include/dali/protocol/dali_command_queue.h:38-69 | per priority, what was handed out followed by what waits is what was accepted, in arrival order: nothing lost, duplicated or overtaken |
| CommandQueue.AlwaysSorted | components/dali_protocol/include/dali/protocol/dali_command_queue.h:43-55 | over every run the array is sorted by priority and within capacity |
| Transaction.DaliTransactionService.Execute | components/dali_protocol/dali_transaction.cpp:61-109 | the retry loop gives the result and leaves the bus trace of the retry function, and its tail is unreachable |
| Transaction.TransactionTrace | components/dali_protocol/dali_transaction.cpp:71-104 | whatever the bus does, attempts equal transmissions, waits are one fewer and sum to the reported delay, no attempt follows a success or a failure that is not retryable, and status, last result and response are those of the last attempt |
| Transaction.EventsFollow | components/dali_protocol/dali_transaction.cpp:71-125 | every event of a valid transaction is the request's own frame, timeout or wait, with what the environment answers at that moment; the k-th wait is 100, 500 or, from the third on, 2000 ms plus the jitter drawn after the trace before it |
| Transaction.WaitsStepped | components/dali_protocol/dali_transaction.cpp:100-125 | with bounded jitter the waits lie in 100..125, 500..525 and then 2000..2025 ms |
| Transaction.StatusMeaning | components/dali_protocol/dali_transaction.cpp:61-109 | each status stands for exactly its last results of the bus; an invalid request gets its own result without an attempt |
| Transaction.ExhaustedIff | components/dali_protocol/dali_transaction.cpp:95-98 | retries are reported exhausted if and only if all maxRetries + 1 attempts were made and retryable |
| Transaction.InvalidRequestSilent | components/dali_protocol/dali_transaction.cpp:64-69 | exactly the invalid requests never reach the bus |
| Transaction.DelayBound | components/dali_protocol/dali_transaction.cpp:100-125 | with bounded jitter a transaction waits at most its backoff bound, and never over 12800 ms |
| Quality.CommunicationQualityTracker.Record | components/dali_protocol/dali_transaction.cpp:7-38 | one result moves the total and exactly one category, each saturating |
| Quality.CommunicationQualityTracker.TakeSnapshot | components/dali_protocol/dali_transaction.cpp:40-52 | failures and successes make up the total (none if successes exceed it), the rate times the total is the successes, and a tracker without data reports a rate of 1 |
| Quality.CountersAreTallies | components/dali_protocol/dali_transaction.cpp:7-38 | after any results each counter is the number of results of its category, capped at 32 bits |
| Quality.BalanceIff | components/dali_protocol/dali_transaction.cpp:7-38 | the categories add up to the total if and only if it has not saturated or one category has everything |
| Quality.SnapshotSound | components/dali_protocol/dali_transaction.cpp:40-52 | over any run the guard never acts, failures are the results that did not succeed, the rate lies between 0 and 1 and is 1 exactly if nothing failed, and no data means no results |
| Pipeline.DaliProtocolPipeline.Enqueue | components/dali_protocol/include/dali/protocol/dali_protocol_pipeline.h:21-23 | stores the request or refuses when full, leaving bus and counters alone |
| Pipeline.DaliProtocolPipeline.ProcessNext | components/dali_protocol/include/dali/protocol/dali_protocol_pipeline.h:25-33 | executes and records exactly the head of the queue, or does nothing when empty |
| Pipeline.PipelineQueryClient.Query | components/dali_protocol/pipeline_query_client.cpp:49-77 | one query enqueues its numbered request, processes the head and maps that result; a full queue answers QueueFull; the branch for an empty queue is unreachable |
| Pipeline.DaliControl.Submit | components/dali_control/dali_control.cpp:7-13 | the same for a command that expects no answer |
| Pipeline.OwnRequestIff | components/dali_protocol/pipeline_query_client.cpp:62-67 | a call processes its own request when nothing at least as urgent was waiting, and the waiting head otherwise; result, bus trace and counters are those of that request's transaction, and the queue length is unchanged |
| Pipeline.RequestInRun | components/dali_protocol/pipeline_query_client.cpp:53-61 | the i-th call of a run queues its own frame, device key, priority, timeout and retries, expects an answer exactly if it is a query, and is numbered by the calls of its kind before it, modulo 2^32 |
| Pipeline.FullTurnsAway | components/dali_protocol/pipeline_query_client.cpp:62-66 | a full queue of 64 turns queries and commands away with the outcome of their own, and nothing else changes |
| Pipeline.CallOnEmpty | components/dali_protocol/include/dali/protocol/dali_protocol_pipeline.h:21-33 | on an empty queue a call is the transaction of its own request and nothing else |
| Pipeline.CallsOwnTheirReplies | components/dali_protocol/pipeline_query_client.cpp:49-77 | while all traffic goes through query and submit the queue is empty between calls, no call is turned away, and every reply reports the caller's own frame and sequence number; a value it carries is the byte the bus delivered last, in answer to that frame |
| Pipeline.QueryOutcomeMeaning | components/dali_protocol/pipeline_query_client.cpp:8-45 | for a valid query each outcome corresponds to what the bus did last; the attempts and the last result are those of the trace; a value is present exactly when answered, and is then the byte of the last event; a reading is temporarily unavailable exactly after a retryable result and invalid after any other failure |
| Presence.RecordFromHistory | components/dali_device_manager/dali_device_manager.cpp:55-96 | after any history of results the record, its miss counter min(3, misses since the last answer), presence, lifecycle, first and last times and the duplicate latch are what the history says |
| Presence.ChangeIff | components/dali_device_manager/dali_device_manager.cpp:55-96 | exactly when Discovered, Recovered, DuplicateSuspected and Missing are reported, in terms of the history |
| Presence.KindSays | components/dali_device_manager/dali_device_manager.cpp:10-17 | which query results count as an answer, a collision, a bus failure or a miss |
| Presence.DiscoveredOnce | components/dali_device_manager/dali_device_manager.cpp:57-62 | a device is reported discovered once, by its first answer, and never again |
| Presence.DuplicatesSeparated | components/dali_device_manager/dali_device_manager.cpp:56-83 | between two duplicate reports for an address lies a valid answer |
| Presence.BusFailuresInvisible | components/dali_device_manager/dali_device_manager.cpp:86-89 | deleting every bus-failure result changes neither the final state nor the reports |
| Presence.InStepIff | components/dali_device_manager/dali_device_manager.cpp:76-77 | the reports keep in step with the record at every moment if and only if no collision ever hits a missing device |
| Presence.AlternatesIff | components/dali_device_manager/dali_device_manager.cpp:64-96 | Missing and Recovered strictly alternate if and only if no collision on a device that has gone quiet is followed by a miss that gives it up again, read off the results alone |
| Presence.CollisionFreeAlternates | components/dali_device_manager/dali_device_manager.cpp:64-96 | in particular on every run without collisions |
| Presence.AlternationFails | components/dali_device_manager/dali_device_manager.cpp:77-95 | a concrete run on which a device is reported missing twice in a row |
| DeviceManager.DiscoveryBatch.Add | components/dali_device_manager/include/dali/device/dali_device_manager.h:106-110 | appends a change, or drops it when 64 are held |
| DeviceManager.DaliDeviceManager.Upsert | components/dali_device_manager/dali_device_manager.cpp:32-43 | creates or touches one record, and the count stays the number of records |
| DeviceManager.DaliDeviceManager.ScanPresence | components/dali_device_manager/dali_device_manager.cpp:45-99 | a scan leaves registry, latches, pipeline, sequence number and batch as the scan function says |
| DeviceManager.DaliDeviceManager.ScanAddress | components/dali_device_manager/dali_device_manager.cpp:49-97 | one turn of the loop: one query, one step of that address |
| DeviceManager.DaliDeviceManager.ApplyResult | components/dali_device_manager/dali_device_manager.cpp:53-96 | a result changes its own slot only and adds at most one change |
| DeviceManager.DaliDeviceManager.DetectCoreCapabilities | components/dali_device_manager/dali_device_manager.cpp:101-139 | the four probes in order, and an empty batch |
| DeviceManager.DaliDeviceManager.ProbeAddress | components/dali_device_manager/dali_device_manager.cpp:107-129 | one probe asks unless the capability is unsupported, and updates one record |
| Capabilities.CapabilityFromHistory | components/dali_device_manager/dali_device_manager.cpp:109-128 | a capability is unsupported for good once two probes since the latest answer went unanswered, collisions and bus failures aside; until then supported exactly if it ever answered |
| DeviceRuns.CallEffect | components/dali_device_manager/dali_device_manager.cpp:101-139 | a probing call moves an entry exactly by what it asked about it, and asks only about entries not given up; a scan at most opens a record with nothing probed |
| DeviceRuns.CallAsksIff | components/dali_device_manager/dali_device_manager.cpp:107-137 | a probing call sends commands 0x90, 0x99, 0x97 and 0x9A to its own address, each exactly if the device is known and that capability not given up, and then at most retries + 1 times |
| DeviceRuns.EntriesTell | components/dali_device_manager/dali_device_manager.cpp:101-139 | in any interleaving of scans and probing calls over any bus, every capability entry is what the answers to its own probes say |
| DeviceRuns.GivenUpIsSilent | components/dali_device_manager/dali_device_manager.cpp:109-110 | once given up, a capability's command is never again sent to that address, whatever is called later, and its entry stays |
| Readings.ReadingsFollowHistories | components/dali_device_manager/dali_device_manager.cpp:113-119 | in any such run device type, version and physical minimum each hold the value and time of the latest answer to their own probes, or nothing if there is none |
| Readings.AnswersDelivered | components/dali_device_manager/dali_device_manager.cpp:113-119 | the latest answer of such a history is a byte the bus delivered right after the command of that capability went to that address |
| Readings.ReadingsDelivered | components/dali_device_manager/dali_device_manager.cpp:101-139 | so a reading that has a value is such a byte, asked for with 0x99, 0x97 or 0x9A at the very address it is stored under |
| DeviceRuns.PresenceFollowsScans | components/dali_device_manager/dali_device_manager.cpp:45-139 | however scans and probing calls interleave, record, counter, lifecycle, times and latch are what the scans have heard from the address |
| DeviceRuns.ReportsFollowScans | components/dali_device_manager/dali_device_manager.cpp:45-99 | in such a run a scan lists for each address exactly the change its history calls for |
| Discovery.ScanIsPointwise | components/dali_device_manager/dali_device_manager.cpp:49-97 | a scan steps each address by its own answer, independently of the others |
| Discovery.ScanKeepsChanges | components/dali_device_manager/dali_device_manager.cpp:46-98 | the batch of a scan is every change called for; none is dropped |
| Discovery.BatchAscends | components/dali_device_manager/dali_device_manager.cpp:49-98 | the batch lists strictly ascending addresses, so at most one change each |
| Discovery.BatchLists | components/dali_device_manager/dali_device_manager.cpp:49-98 | a change is listed if and only if the answer of its address called for it |
| Discovery.ScansFollowHistories | components/dali_device_manager/dali_device_manager.cpp:45-99 | from an empty registry, after any scans over any bus, every slot is the one its own history gives and the batch is exactly the reports of those histories |
| Discovery.ScanKeepsQueueEmpty | components/dali_device_manager/dali_device_manager.cpp:49-52 | scans leave the command queue empty and the client's settings alone |
| Discovery.ScanAsksEach | components/dali_device_manager/dali_device_manager.cpp:49-52 | a scan sends command 0x91 to every address from its start on, at least once and at most retries + 1 times, and to no other |
| Discovery.AskOwnIff | components/dali_device_manager/dali_device_manager.cpp:49-52 | with anything waiting in the queue, a query of the manager is answered for its own request exactly unless a critical or high request was waiting |
| Discovery.ScanCost | components/dali_device_manager/dali_device_manager.cpp:49-52 | over any bus a scan makes at least one and at most retries + 1 transmissions per address and waits at most the backoff bound for each |
| Discovery.KindFromBus | components/dali_device_manager/dali_device_manager.cpp:10-17 | a presence query counts as an answer, a collision or a bus failure exactly when the last thing the bus did was that; timeouts, a busy bus, hardware faults and a full queue all count as misses |
| Discovery.ScanWithoutPower | components/dali_device_manager/dali_device_manager.cpp:86-88 | a scan that falls into an outage, however the bus behaved before and behaves after, makes one transmission per address, no waits, and changes no record, latch or batch |
| Discovery.OutageGoesUnnoticed | components/dali_device_manager/dali_device_manager.cpp:45-99 | in any run of scans one that falls into an outage leaves the registry as the run before it left it and reports nothing |
| Discovery.ScanMisconfigured | components/dali_device_manager/dali_device_manager.cpp:86-96 | a client with a zero timeout or too many retries never reaches the bus and every answer counts as a miss |
| Discovery.MisconfiguredFindsNothing | components/dali_device_manager/dali_device_manager.cpp:45-99 | from an empty registry its scans never find, report or transmit anything |
| Scheduler.DaliScheduler.Configure | components/dali_scheduler/dali_scheduler.cpp:5-16 | sets one slot with its first due times; out-of-range addresses change nothing |
| Scheduler.DaliScheduler.Next | components/dali_scheduler/dali_scheduler.cpp:65-86 | the nested search returns the first eligible address from the cursor on, its first ready kind, moves the cursor just past it, and returns nothing exactly when no address is eligible |
| Scheduler.DaliScheduler.Complete | components/dali_scheduler/dali_scheduler.cpp:88-96 | moves one due time by that kind's interval, ignoring unknown addresses and kinds |
| SchedulerRuns.PickUnique | components/dali_scheduler/dali_scheduler.cpp:65-86 | what Next promises has a single outcome |
| SchedulerRuns.PickSays | components/dali_scheduler/dali_scheduler.cpp:18-82 | what a pick says: priority by kind and trouble, duration 100, the next cursor, and that no kind earlier in the order status, presence, electrical, temperature, lifetime, identity was ready |
| SchedulerRuns.PickApproaches | components/dali_scheduler/dali_scheduler.cpp:68-82 | if an address is eligible, Next picks it or brings the cursor strictly nearer |
| SchedulerRuns.Fairness | components/dali_scheduler/dali_scheduler.cpp:65-86 | an address eligible at every Next is picked before the calls outnumber its distance from the cursor, whatever is configured or completed meanwhile |
| SchedulerRuns.FairnessWithin64 | components/dali_scheduler/dali_scheduler.cpp:65-86 | hence within 64 calls |
| SchedulerRuns.DueIsSet | components/dali_scheduler/dali_scheduler.cpp:5-96 | over any run the due time of a kind is what the latest call to configure its address or complete that kind there has set it to |
| SchedulerRuns.ReadyAgainIff | components/dali_scheduler/dali_scheduler.cpp:5-96 | over any run, after the latest setting of a kind at t it is ready if and only if the bus has room and t + d is reached, d written out in milliseconds for each kind, its context and the age of its trouble, after a completion (status 2000, 5000 or 30000) as after a configuration |
| SchedulerRuns.PollAwaitsSetting | components/dali_scheduler/dali_scheduler.cpp:73-75 | over any run a poll comes no earlier than that |
| SchedulerRuns.PollWaitsOut | components/dali_scheduler/dali_scheduler.cpp:73-75 | a poll comes no earlier than the latest completion of its kind plus the interval that completion set, with the context and the time of its own moment; for status polls, if the address was not configured since |
| SchedulerRuns.PollsSpaced | components/dali_scheduler/dali_scheduler.cpp:32-55 | between two polls of one kind of one address lies a setting whose time is reached; they are at least that kind's shortest interval apart unless it is a status poll and the latest setting configured the address anew |
| SchedulerRuns.ReadyEarlyIff | components/dali_scheduler/dali_scheduler.cpp:5-55 | from the latest setting on, a kind can be ready within its shortest interval of a poll if and only if that setting configured the address less than 2000 ms after a status poll |
| SchedulerRuns.FoundEarlyIff | components/dali_scheduler/dali_scheduler.cpp:65-96 | a later search finds a kind ready before its shortest interval is over if and only if it is a status poll, admitted, within 2000 ms, and the latest setting configured the address anew |
| SchedulerRuns.RateBound | components/dali_scheduler/dali_scheduler.cpp:88-96 | so any window of width W holds at most W / interval + 1 of them; for status polls, if no search comes within 2000 ms of a poll while such a configuration stands |
| SchedulerRuns.ReconfiguredPolledTwice | components/dali_scheduler/dali_scheduler.cpp:5-96 | a run with monotone time and every pick completed that polls one address twice for its status at one moment, by configuring it in between |
| SchedulerRuns.OverloadPicks | components/dali_scheduler/dali_scheduler.cpp:18-63 | at or above the normal limit only due status polls of lights with a warning or recent fault are picked, and one is picked if and only if there is one and the load is below the diagnostic limit |
| Alarms.EventManager.FindSlot | components/event_manager/event_manager.cpp:5-13 | the first used slot of the key |
| Alarms.EventManager.Raise | components/event_manager/event_manager.cpp:15-35 | activates in the first free slot, escalates, updates silently, or is dropped when full |
| Alarms.EventManager.Clear | components/event_manager/event_manager.cpp:37-47 | releases the slot of the key and reports it with the new time |
| Alarms.EventManager.Acknowledge | components/event_manager/event_manager.cpp:49-55 | marks the key's slot, and tells whether there was one |
| Alarms.EventManager.Remind | components/event_manager/event_manager.cpp:57-68 | the first due slot is reported and stamped |
| Alarms.EventManager.ActiveCount | components/event_manager/event_manager.cpp:70-74 | counts the used slots, which MapSize shows to be the number of keys |
| Alarms.MapLookup | components/event_manager/event_manager.cpp:5-13 | with unique keys the search finds a key exactly when the map of the table has it, and the same alarm |
| Alarms.MapSize | components/event_manager/event_manager.cpp:70-74 | with unique keys the number of used slots is the size of the map |
| AlarmRuns.RaiseRefines | components/event_manager/event_manager.cpp:15-35 | raising is the map operation and keeps keys unique |
| AlarmRuns.ClearRefines | components/event_manager/event_manager.cpp:37-47 | clearing removes the key from the map |
| AlarmRuns.AcknowledgeRefines | components/event_manager/event_manager.cpp:49-55 | acknowledging marks the key's alarm and no other |
| AlarmRuns.RemindRefines | components/event_manager/event_manager.cpp:57-68 | a reminder reports and stamps some due alarm, or none is due |
| AlarmRuns.StepRefines | components/event_manager/event_manager.cpp:15-68 | each of the four calls, whichever it is, is its map operation |
| AlarmRuns.RunRefinesMap | components/event_manager/event_manager.cpp:15-74 | from an empty table and event number 1, over every run there is one used slot per key, at most 128, and every call is the map operation of the same name, which also says what is emitted and which event number comes next, modulo 2^32 |
| AlarmLifeCycle.StepAtKey | components/event_manager/event_manager.cpp:15-68 | every way a call can affect one key, and that a call on another key does not |
| AlarmLifeCycle.LifeCycle | components/event_manager/event_manager.cpp:15-68 | each key's emissions follow (Activated (Escalated or Reminder)* Cleared)*, and the table holds the key exactly inside a round |
| AlarmLifeCycle.AcknowledgementTold | components/event_manager/event_manager.cpp:21-55 | every emission tells whether the alarm was acknowledged since its activation; activations start unacknowledged |
| AlarmLifeCycle.EscalationsAreRises | components/event_manager/event_manager.cpp:27-33 | an activation escalates exactly as often as its raised severity rises, hence at most twice exactly if it rises at most twice |
| AlarmLifeCycle.EscalationBound | components/event_manager/event_manager.cpp:27-33 | so at most twice plus the levels the raised severity ever fell |
| AlarmLifeCycle.EscalationsUnbounded | components/event_manager/event_manager.cpp:27-33 | raising high and low in turn escalates any number of times, so the falls cannot be left out |
| AlarmLifeCycle.ReminderSpacing | components/event_manager/event_manager.cpp:57-66 | a reminder comes at least its interval after that alarm's previous emission |
| AlarmLifeCycle.ReminderTakesOne | components/event_manager/event_manager.cpp:57-68 | a reminder takes exactly its own alarm off the due ones; with interval zero it takes none |
| AlarmLifeCycle.DrainEmitsEachOnce | components/event_manager/event_manager.cpp:57-68 | repeated reminders at one moment emit each due alarm exactly once, then nothing |
| FaultPersistence.FaultPersistence.Observe | components/light_health_engine/light_health_engine.cpp:7-25 | one sample moves the saturating counters and flags as the monitor function, and tells whether the warning flipped |
| FaultPersistence.FlagsFromHistory | components/light_health_engine/light_health_engine.cpp:7-25 | for all thresholds and despite 8-bit counters, each flag is active if and only if a run of its length of abnormal samples has ended and no recovery run has ended since (a recovery threshold of zero acts as one) |
| FaultPersistence.FaultImpliesWarningIff | components/light_health_engine/light_health_engine.cpp:22-23 | a fault implies a warning over all histories if and only if the warning threshold is not the larger |
| FaultPersistence.FlipsTakeTime | components/light_health_engine/light_health_engine.cpp:7-25 | k warning flips need at least ceil(k/2) warning runs and floor(k/2) recovery runs of samples |
| LightHealth.LightHealthEngine.Evaluate | components/light_health_engine/light_health_engine.cpp:27-70 | one evaluation moves the score, and reports state and flags, as the functions the lemmas are about |
| LightHealth.LightHealthEngine.AssessFaults | components/light_health_engine/light_health_engine.cpp:29-49 | the deductions and flag bits of outright faults |
| LightHealth.LightHealthEngine.AssessDrifts | components/light_health_engine/light_health_engine.cpp:50-53 | the deductions of drifts and intermittent trouble |
| LightHealth.DropsAtOnce | components/light_health_engine/light_health_engine.cpp:55-60 | for all weights, the score drops to its target in one step, recovers by one step up to 100, and stays where the weights balance below zero |
| LightHealth.WeightsAdd | components/light_health_engine/light_health_engine.cpp:29-53 | which weight goes with which observation: each adds its own, whatever else is observed, except that a critical temperature takes the place of the thermal warning; the commanded state adds nothing |
| LightHealth.ScoreInRange | components/light_health_engine/light_health_engine.cpp:55-60 | over any history the score stays at most 100, and at least 0 if the recovery step is not negative or no weight deducts |
| LightHealth.ScoreInRangeIff | components/light_health_engine/light_health_engine.cpp:55-60 | and over all histories it stays within 0 and 100 only then |
| LightHealth.ScoreIsTightestAllowance | components/light_health_engine/light_health_engine.cpp:55-60 | for all weights and recovery steps, the score is the least of 100 and of every past deduction's target moved by the recovery steps since |
| LightHealth.StateMeaning | components/light_health_engine/light_health_engine.cpp:62-68 | for all weights, each reported state says what was observed and where the score stands |
| LightHealth.FlagsDecode | components/light_health_engine/light_health_engine.cpp:31-49 | each flag bit stands for one observation |
| RollingBaseline.RollingBaseline.Add | components/trend_engine/trend_engine.cpp:7-19 | after any values added the fields are those of the whole sample, the new value last |
| RollingBaseline.RollingBaseline.Variance | components/trend_engine/trend_engine.cpp:23-26 | times one less than the number of values, the square of the reported deviation is the sum of squared deviations of all values added from their average; it is never negative, and zero below two values |
| RollingBaseline.MeanIsAverage | components/trend_engine/trend_engine.cpp:14-16 | after any values the running mean is their arithmetic mean |
| RollingBaseline.WelfordExact | components/trend_engine/trend_engine.cpp:14-18 | the accumulator is exactly the sum of squared deviations from the final mean |
| RollingBaseline.VarianceNonNegative | components/trend_engine/trend_engine.cpp:23-26 | so what is put under the square root is never negative |
| RollingBaseline.MeanMinimises | components/trend_engine/trend_engine.cpp:14-18 | no other centre has smaller squared deviations |
| RollingBaseline.Extremes | components/trend_engine/trend_engine.cpp:8-13 | the recorded extremes are the least and greatest value |
| RollingBaseline.MeanBetweenExtremes | components/trend_engine/trend_engine.cpp:7-19 | the mean lies between the recorded extremes |
| TrendSeries.TrendSeries.Add | components/trend_engine/trend_engine.cpp:28-32 | writes one slot of the ring and moves on |
| TrendSeries.TrendSeries.Evaluate | components/trend_engine/trend_engine.cpp:34-69 | the one loop computes every summary of the slots |
| TrendSeries.RingHolds | components/trend_engine/trend_engine.cpp:28-32 | after any history the slots are the samples of the current turn followed by those left of the turn before |
| TrendSeries.WindowsAreRecent | components/trend_engine/trend_engine.cpp:46-57 | window sums and counts are those of the newest 1024 samples, wherever they lie in the ring |
| TrendSeries.SummarySays | components/trend_engine/trend_engine.cpp:46-68 | which summary goes into which field: counts and averages over 7 and 30 days of the newest 1024 samples, and when a trend is called meaningful |
| TrendSeries.WindowOfOne | components/trend_engine/trend_engine.cpp:48-57 | a sample counts for a window if and only if it is neither in the future nor older than the span |
| TrendSeries.FutureIgnored | components/trend_engine/trend_engine.cpp:48 | a sample from the future changes no summary |
| TrendSeries.EwmaWeights | components/trend_engine/trend_engine.cpp:60 | on positive samples the weighted average is the sum in which the latest weighs 0.2, each other 0.8 times what the next one weighs, and the first what is left |
| TrendSeries.RateIsSlope | components/trend_engine/trend_engine.cpp:58-64 | the rate is the slope between an earliest and a latest sample not in the future, and zero unless two differ in time |
| TrendSeries.EwmaChronologicalIff | components/trend_engine/trend_engine.cpp:46-60 | the weighted average equals that in order of arrival, for all histories of a length, if and only if the ring has not wrapped or a turn was just completed |

## Left out

- Crc16.ComputeCrc: the 16-bit word is a bit sequence; the bitwise operators of the language are not modelled separately.
- FrameCodec.DamagedFrameRejected: says nothing about corruption that changes the length, which other frames of another length can always imitate.
- EventHistory.RecoverAfterDamage: a record is a byte string and its check word; structure padding and the byte image of the event fields are not modelled, and the check word is taken to follow the bytes with its low byte first.
- Transaction.DelayBound: needs the jitter source to keep to the bound it is asked for, as its interface demands.
- Presence.RecordFromHistory: the duplicate latch, a function-local static shared by all managers in the code, is the state of a single manager here; the real-time, lifetime and health parts of a record, which scans do not touch, are absent.
- SchedulerRuns.PollsSpaced: needs time not to go back and each pick to be completed before the next search (a pick never completed stays due and is repeated).
- Discovery.OutageGoesUnnoticed: the outage has to last for the whole scan; a scan during which power comes back or goes is covered by ScansFollowHistories.
- SchedulerRuns.Fairness: counts calls, not time; an address not eligible at some call may be passed over at that call.
- AlarmRuns.RunRefinesMap: the event numbers of the alarms held are not claimed stable or unique, since a re-raise overwrites them and they wrap; the score, flags, snapshot and description of an event are one opaque value.
- RollingBaseline.RollingBaseline.Variance: the variance instead of the standard deviation, because square roots are not modelled.
- RollingBaseline.WelfordExact: over real numbers; floating-point rounding and not-a-number values are not modelled.
- TrendSeries.EwmaChronologicalIff: likewise over real numbers.
- Wrap-around of 64-bit times, of the 32-bit sample count of the baseline and of the delay accumulator (which DelayBound shows cannot wrap) is not modelled.
- Frame constructors other than the short-address command, and the response parser: finite byte maps; a forward frame is an opaque number to everything modelled here.
- The wall-clock time of a reading, which is always absent in the code modelled here.
- The forwarding functions of the control service, which only build a frame and submit it.
- `C6Session` and its transport: one pending flag; the codec below it is modelled in full.
- `DiagnosticEngine`, `BaselineStore` and `SmartLightConfig` validation: each is decided by one chain of comparisons.
- `DemoController`, `SystemMonitor` and the simulated physical layer: composition and trivial state; the simulated layer is covered by the arbitrary environment.
- `main/`, Kconfig, FreeRTOS threads, `EspTimeSource` and `NvsMetadataStore`: platform code and calls into ESP-IDF.
