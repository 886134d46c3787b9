# GPS tracker firmware and power monitor: a model in Dafny

This project models the stateful logic of a GPS tracker that buffers positions and publishes
them over MQTT, in its automatic and its button-stepped form, and of the database writer of its
power monitor, and proves properties of the model for all inputs, runs and interleavings.
`dafny verify dfyconfig.toml` checks it.

| module | what it models |
|---|---|
| `Multiples` | powers of two and multiples in a range: the arithmetic of the backlog |
| `BacklogModel`, `BacklogOutage` | the adaptive-stride backlog with unbounded numbers, and its closed form in an outage |
| `RecordedDoubling` | how the decision record's doubling differs from the code's |
| `BacklogMachine` | the backlog as the firmware has it: array, 32-bit wrapping counter, 32-bit stride |
| `Mqtt` | the MQTT module: callbacks, flags and binary semaphores |
| `Delivery` | the publish protocol, statement by statement, with a lossy network and a broker |
| `Episodes` | what an episode with removals leaves of its fixes |
| `DeliveryProgress` | that the protocol can always come to deliver what is buffered |
| `PublishTrace` | that a publish of that protocol is one call of the MQTT module |
| `LoopTrace`, `Simulation` | that its publish loop is the applications' loop, and its runs are runs of the automatic application |
| `Publishing`, `Tracker` | the publish loop, and the automatic application over the array backlog |
| `Modem` | LTE registration, PSM and low-power entry, with a log of radio commands |
| `Gnss`, `StateControl`, `ButtonGate` | the button-stepped application: session, ten states, gate |
| `InfluxWriter` | the batching database writer with a concurrent clear |
| `Battery` | the integer interpolation of a discharge curve |

Where the source updates state in place there is a class whose methods follow its statements.
Each method equates the new state with a specification function of the old one, and the lemmas
are about those functions over whole runs.

## How the environment enters

- What another thread or the network does between two statements is an event list or a result,
  an argument of the operation. Nothing limits how many events come or in what order.
- A callback runs atomically. The two LTE listeners run as one callback.
- A new packet identifier differs from those of messages that may still be acknowledged, and the
  broker acknowledges only what it received, each message once (MQTT Version 3.1.1, sections
  2.3.1 and 4.3.2). `Mqtt.StaleAckCompletes` shows what happens otherwise.
- LTE may be active from the moment activation is requested until a deactivation succeeds, and
  GNSS may be running from the moment its start is requested until a stop succeeds, whatever the
  request returned.
- A write to the database or a clear either takes effect or fails; none takes effect later.

## Findings

The code is followed wherever it and its documentation differ.

- Decision record 0005 (lines 101-104) has the qualifying fix appended after a doubling. The code
  drops it if its number is no multiple of the doubled stride (`tracker_backlog.c`, lines 70-75).
  Appending it would break the even spacing and, at capacity 1, leave the array
  (`RecordedDoubling`).
- A stride doubled past 32 bits becomes 0 and the next modulo is by zero. `TrapsExactly` gives the
  guard, `OutageTrapsExactly` the length of outage, `TrapHappens` a run; it takes over
  `cap * 2^31` additions in one episode (`LongEpisodesAreSafe`).
- A queue error with one of the two no-fix codes would end a session with a position in hand and
  still buffer a no-fix report (`Gnss.ResultMeaning`, `StateControl.OneReport`).
- A failed GNSS start that returns -ENODATA or -ETIMEDOUT buffers a no-fix report although no
  session took place (`StateControl.ReportWithoutSession`).
- Low-power entry can return 0 with LTE on and the modem awake, when the modem sleeps and wakes
  during the entry (`Modem.AwakeOnSuccess`). The radio exclusion does not depend on it.
- A disconnect handled between the return of the connect request and the write of the attempt
  flag is overwritten: the flag then outlives the connection (`Mqtt.ConnectFlagExactly`).
- A clear is permanent only as long as the wall clock is not set back between clears
  (`InfluxWriter.ClearIsPermanent`, `ResurrectionPossible`, `ClockSetBack`).
- The battery curve may have neighbours of equal voltage: the divisor is still never 0, but such a
  point can read as the level of an earlier one (`Battery.ExactAtPoints`).

## Model

| member | source | states |
|---|---|---|
| `BacklogOutage.ClosedForm` | myprojects/gps_mqtt_tracker/src/tracker_backlog.c:39-80 | In an uninterrupted outage, after every addition the whole state is a closed form: the stride is the finest power of two with at most `cap` multiples among the numbers seen, the one an offline choice makes, and the buffer is exactly the fixes added under those multiples, in order |
| `BacklogOutage.OfflineIsFinest` | docs/adr/0005-adaptive-stride-backlog-retention.md:71-75 | Doubling from 1 with the whole range known finds the finest power-of-two stride that fits |
| `BacklogOutage.FinestIsUnique` | myprojects/gps_mqtt_tracker/src/tracker_backlog.c:59-68 | That stride is unique, so online doubling and offline choice cannot differ |
| `BacklogOutage.Coverage` | docs/adr/0005-adaptive-stride-backlog-retention.md:77-85 | Every fix of an outage, kept or dropped, is less than one stride from a kept one, and the stride is 1 or stride times capacity is below twice the number of fixes; proved for all outages and capacities where the decision record reports a simulation |
| `BacklogOutage.CoverageFromFloor` | myprojects/gps_mqtt_tracker/src/tracker_backlog.c:43-80 | In every reachable state, whatever was removed, every fix from the floor on is less than one stride from a buffered one |
| `BacklogOutage.HeadBound` | docs/adr/0005-adaptive-stride-backlog-retention.md:77-85 | The uncovered head of an outage times the capacity is below twice the number of fixes |
| `BacklogOutage.HalfFull` | myprojects/gps_mqtt_tracker/src/tracker_backlog.c:59-80 | In an outage nothing is dropped while the stride is 1, and after a doubling at least half of the capacity stays in use |
| `BacklogModel.RunInv` | myprojects/gps_mqtt_tracker/src/tracker_backlog.c:39-110 | Any interleaving of additions and removals keeps: the buffer holds exactly the multiples of the stride from the floor on, within capacity, each with its own fix, and the stride was never doubled without need |
| `BacklogModel.AddInv` | myprojects/gps_mqtt_tracker/src/tracker_backlog.c:39-80 | Every addition, at every capacity from 1, keeps the invariant and leaves between 1 and `cap` entries, so the append never leaves the array and the buffer is not empty afterwards |
| `BacklogModel.AddDoubles` | myprojects/gps_mqtt_tracker/src/tracker_backlog.c:59-76 | An addition that doubles the stride leaves between half the capacity rounded up and half the capacity rounded down plus one entries |
| `BacklogModel.DoublingFits` | myprojects/gps_mqtt_tracker/src/tracker_backlog.c:59-68 | Counting behind it: what a doubled stride keeps of a full buffer and the qualifying fix |
| `BacklogModel.RemoveInv` | myprojects/gps_mqtt_tracker/src/tracker_backlog.c:102-110 | A removal keeps the invariant, with the floor one past the removed number |
| `BacklogModel.RefilterNumbers` | myprojects/gps_mqtt_tracker/src/tracker_backlog.c:62-68 | Refiltering the multiples of a stride leaves exactly the multiples of the doubled stride |
| `BacklogModel.ExactlyTheMultiples` | myprojects/gps_mqtt_tracker/src/tracker_backlog.c:43-80 | In every reachable non-empty state a number from the floor on is buffered if and only if the stride divides it |
| `BacklogModel.EvenSpacing` | docs/adr/0005-adaptive-stride-backlog-retention.md:77-82 | In every reachable state neighbours are exactly one stride apart, the last entry is less than a stride old, and each slot carries the fix originally added under its number |
| `BacklogModel.StrideBound` | myprojects/gps_mqtt_tracker/src/tracker_backlog.c:59-80 | Whatever was removed, the stride is 1 or stride times capacity is below twice the additions since the buffer was last empty |
| `Episodes.EpisodeCoverage` | myprojects/gps_mqtt_tracker/src/tracker_backlog.c:43-110 | Over a whole episode, thinning and confirmed removals alternating in any way: every fix added is less than one stride from one still buffered or already delivered |
| `Episodes.ThinnedByStride` | myprojects/gps_mqtt_tracker/src/tracker_backlog.c:51-76 | Over a whole episode a fix was thinned out if and only if the stride does not divide its number and it was not delivered, and is buffered if and only if the stride divides it and it was not delivered |
| `Episodes.EpisodeKeeps` | myprojects/gps_mqtt_tracker/src/tracker_backlog.c:43-110 | The invariant behind both, after every interleaving of the delivery protocol |
| `Episodes.StaysNear` | myprojects/gps_mqtt_tracker/src/tracker_backlog.c:59-76 | When the stride doubles, whatever stood for a fix still does or the next multiple of the doubled stride does |
| `RecordedDoubling.DiffersExactly` | docs/adr/0005-adaptive-stride-backlog-retention.md:101-104 | An addition as the decision record describes it differs from the code if and only if it doubles the stride for a fix whose number the doubled stride does not divide |
| `RecordedDoubling.BreaksSpacing` | docs/adr/0005-adaptive-stride-backlog-retention.md:101-104 | A concrete run in which the record breaks the spacing it promises |
| `RecordedDoubling.LeavesTheArray` | docs/adr/0005-adaptive-stride-backlog-retention.md:101-104 | A concrete run in which the record stores more entries than the capacity |
| `BacklogMachine.WrapKeepsDecision` | myprojects/gps_mqtt_tracker/src/tracker_backlog.c:51-52 | The wrapping 32-bit counter makes the same keep or drop decision as an unbounded one, for every power-of-two stride |
| `BacklogMachine.DoublePower` | myprojects/gps_mqtt_tracker/src/tracker_backlog.c:62 | Doubling a power of two stays one, and overflows to 0 exactly when it no longer fits 32 bits |
| `BacklogMachine.AddRefines` | myprojects/gps_mqtt_tracker/src/tracker_backlog.c:39-80 | One addition on 32-bit integers agrees with the unbounded one, and meets a modulo by zero exactly when the unbounded stride leaves 32 bits |
| `BacklogMachine.TrapsExactly` | myprojects/gps_mqtt_tracker/src/tracker_backlog.c:51-64 | The guard of the modulo by zero, readable off the state before the call: the buffer is full, the stride is 2^31 and divides the next number |
| `BacklogMachine.RunTrapsExactly` | myprojects/gps_mqtt_tracker/src/tracker_backlog.c:36-110 | A run fails if and only if one of its additions meets that guard |
| `BacklogMachine.OutageTrapsExactly` | myprojects/gps_mqtt_tracker/src/tracker_backlog.c:36-64 | From power-on an uninterrupted outage fails if and only if it reaches `(cap + 1) * 2^31` fixes |
| `BacklogMachine.TrapHappens` | myprojects/gps_mqtt_tracker/src/tracker_backlog.c:59-64 | Such a run: capacity 1, 2^32 fixes |
| `BacklogMachine.RunRefines` | myprojects/gps_mqtt_tracker/src/tracker_backlog.c:36-110 | Over whole runs: same buffer and no modulo by zero, if and only if the unbounded stride fits 32 bits after every prefix |
| `BacklogMachine.LongEpisodesAreSafe` | myprojects/gps_mqtt_tracker/src/tracker_backlog.c:36-63 | Runs whose episodes have at most `cap * 2^31` additions never overflow the stride and refine the unbounded backlog |
| `BacklogMachine.OutageFitsExactly` | myprojects/gps_mqtt_tracker/src/tracker_backlog.c:59-68 | In an uninterrupted outage the stride fits 32 bits if and only if at most `cap` multiples of 2^31 were added |
| `BacklogMachine.Backlog.constructor` | myprojects/gps_mqtt_tracker/src/tracker_backlog.c:34-37 | The static state before the first call stands for the initial unbounded backlog |
| `BacklogMachine.Backlog.Add` | myprojects/gps_mqtt_tracker/src/tracker_backlog.c:39-85 | The array operation: fails exactly at the guard of the modulo by zero, otherwise gives the specified 32-bit state, stands for the unbounded addition and leaves 1 to `cap` entries |
| `BacklogMachine.Backlog.RefilterInPlace` | myprojects/gps_mqtt_tracker/src/tracker_backlog.c:60-68 | In-place compaction leaves the entries the coarser stride keeps, in order |
| `BacklogMachine.Backlog.Count` | myprojects/gps_mqtt_tracker/src/tracker_backlog.c:87-90 | The number of retained entries, changing nothing |
| `BacklogMachine.Backlog.PeekOldest` | myprojects/gps_mqtt_tracker/src/tracker_backlog.c:92-100 | The fix of the oldest entry, or none exactly when empty, changing nothing |
| `BacklogMachine.Backlog.RemoveOldest` | myprojects/gps_mqtt_tracker/src/tracker_backlog.c:102-110 | Shifting drops exactly the oldest entry, does nothing when empty, and stands for the unbounded removal |
| `Delivery.ExactlyOnePlace` | myprojects/gps_mqtt_tracker/src/main.c:115-137 | Conservation at QoS 1 in every reachable state: each fix ever added is in exactly one of three places, buffered with its own data, thinned out, or removed; and removed only if the broker has it and acknowledged, without error, an attempt that carried this very fix |
| `Delivery.ConfirmationIsGenuine` | myprojects/gps_mqtt_tracker/src/tracker_mqtt.c:310-338 | Over all interleavings a publish has succeeded only if an acknowledgement without error of this very attempt was handled after its semaphore reset, and the entry about to be removed is the one it carried |
| `Delivery.OtherAcksIgnored` | myprojects/gps_mqtt_tracker/src/tracker_mqtt.c:180-196 | A PUBACK of any other attempt, however late, changes nothing while an attempt is under way |
| `Delivery.EarlyPuback` | myprojects/gps_mqtt_tracker/src/tracker_mqtt.c:310-319 | A PUBACK handled before the current attempt is sent leaves flags and semaphores alone |
| `Delivery.LatePuback` | myprojects/gps_mqtt_tracker/src/tracker_mqtt.c:180-196 | A PUBACK handled after it is sent keeps the link between the semaphore and an acknowledgement of this attempt |
| `Delivery.InOrder` | myprojects/gps_mqtt_tracker/src/main.c:119-131 | Over whole runs fixes reach the MQTT helper in non-decreasing order, retries of one fix are contiguous, and confirmed fixes are strictly increasing, even when the stride evicts the head between retries |
| `Delivery.HeadNeverOlder` | myprojects/gps_mqtt_tracker/src/tracker_backlog.c:62-80 | An addition never brings an older fix to the head |
| `Delivery.UplinkHasWork` | myprojects/gps_mqtt_tracker/src/main.c:82-113 | LTE and MQTT are only opened, and the publish loop only entered, with something buffered |
| `Delivery.RemoveIsConfirmed` | myprojects/gps_mqtt_tracker/src/main.c:119-130 | At the moment of removal the head is confirmed by the current attempt |
| `Delivery.ConservedAdd` | myprojects/gps_mqtt_tracker/src/tracker_backlog.c:39-80 | An addition gives out one number; what leaves the buffer is thinned for good, nothing is delivered, and the partition is kept |
| `Delivery.ConservedRemove` | myprojects/gps_mqtt_tracker/src/tracker_backlog.c:102-110 | A removal moves exactly the head from the buffer to the end of the delivered ones, thins nothing, and keeps the partition |
| `Delivery.RunKeeps` | myprojects/gps_mqtt_tracker/src/main.c:80-158 | The protocol invariant holds after every interleaving of thread statements, callbacks, broker and network |
| `DeliveryProgress.CanDeliver` | myprojects/gps_mqtt_tracker/src/main.c:115-137 | From every reachable state at the publish loop some continuation delivers everything buffered, oldest first, with exactly one hand-over for each fix, and leaves the loop with the buffer empty |
| `DeliveryProgress.CanAlwaysDeliver` | myprojects/gps_mqtt_tracker/src/main.c:80-158 | From every reachable state, whatever was under way, the protocol can come to the publish loop and deliver what it then has buffered |
| `DeliveryProgress.OnwardStep` | myprojects/gps_mqtt_tracker/src/main.c:80-158 | Whatever the thread is doing, some outcome of its next call brings it nearer to the publish loop |
| `LoopTrace.LoopIsDrain` | myprojects/gps_mqtt_tracker/src/main.c:119-132 | The publish loop of the protocol, whatever interleaves, is the drain of the applications with the calls it made: it removes the same entries, and makes one call for each and one more exactly if that one failed |
| `LoopTrace.ErrIndependent` | myprojects/gps_mqtt_tracker/src/tracker_mqtt.c:310-338 | The result of a publish does not depend on anything left over from before it |
| `Simulation.EveryRun` | myprojects/gps_mqtt_tracker/src/main.c:80-158 | Every run of the protocol, however callbacks, network and broker interleave, is matched by a run of the automatic application: outside the publish loop both have the same backlog and are in the same state |
| `Simulation.MoveIsStep` | myprojects/gps_mqtt_tracker/src/main.c:97-114 | Each move of the thread between states is the application's step for the same outcome |
| `Simulation.LoopIsStep` | myprojects/gps_mqtt_tracker/src/main.c:115-138 | The whole publish loop is the application's one publish step, and leads to the same state |
| `PublishTrace.PublishIsOneCall` | myprojects/gps_mqtt_tracker/src/tracker_mqtt.c:281-339 | Every publish of the delivery protocol is one call of the publish operation with the callbacks the run placed between its statements: it ends confirmed if and only if that call returns 0, and leaves exactly the flags and semaphores that call leaves |
| `PublishTrace.StatementStep` | myprojects/gps_mqtt_tracker/src/tracker_mqtt.c:310-338 | Each statement takes the call to its next point or its end |
| `PublishTrace.CallbackStep` | myprojects/gps_mqtt_tracker/src/tracker_mqtt.c:151-196 | Each callback extends the call at the point it has reached |
| `PublishTrace.NoSecondAck` | myprojects/gps_mqtt_tracker/src/tracker_mqtt.c:180-196 | While the thread waits with the semaphore given, no further acknowledgement of this attempt can come |
| `Mqtt.PublishSucceedsExactly` | myprojects/gps_mqtt_tracker/src/tracker_mqtt.c:281-339 | With an identifier nobody acknowledges before the send, a QoS 1 publish returns 0 if and only if the payload fits, the helper accepts it and the last PUBACK for this identifier during the send or the wait has result 0; and exactly which error it returns otherwise |
| `Mqtt.PublishLeaves` | myprojects/gps_mqtt_tracker/src/tracker_mqtt.c:281-339 | A publish leaves its own identifier pending, and the attempt flag falls by the disconnects it sees and nothing else; one whose payload does not fit touches nothing; at QoS 0 the result is the helper's |
| `Mqtt.StaleAckCompletes` | myprojects/gps_mqtt_tracker/src/tracker_mqtt.c:310-319 | Freshness is needed: a concrete run in which a leftover PUBACK with an error result completes a publish that reused its identifier |
| `Mqtt.ConnectSucceedsExactly` | myprojects/gps_mqtt_tracker/src/tracker_mqtt.c:239-279 | A connect returns 0 if and only if the helper accepts it and the last CONNACK after the initial result was written accepts, no earlier acceptance counting; and exactly which error it returns otherwise |
| `Mqtt.ConnectFlagExactly` | myprojects/gps_mqtt_tracker/src/tracker_mqtt.c:261-266 | The attempt flag survives an accepted request if and only if no disconnect is handled after the flag is written, one handled just before being overwritten; a refused request never sets it |
| `Mqtt.DisconnectSucceedsExactly` | myprojects/gps_mqtt_tracker/src/tracker_mqtt.c:341-365 | A disconnect returns 0 if and only if there was no attempt or the helper reports the disconnect after the reset, and then no attempt is left; the flag falls by the disconnects it sees and nothing else; and exactly which error it returns otherwise |
| `Mqtt.TakeEffect` | myprojects/gps_mqtt_tracker/src/tracker_mqtt.c:331-338 | A wait succeeds if and only if the semaphore was given before or during it |
| `Mqtt.HandleAllEffect` | myprojects/gps_mqtt_tracker/src/tracker_mqtt.c:151-196 | Field by field, what any sequence of callbacks leaves behind; a PUBACK counts only under the pending identifier |
| `Mqtt.Client.HandleConnack` | myprojects/gps_mqtt_tracker/src/tracker_mqtt.c:151-166 | The CONNACK callback on the shared flags, and nothing else |
| `Mqtt.Client.HandleDisconnect` | myprojects/gps_mqtt_tracker/src/tracker_mqtt.c:168-178 | The disconnect callback on the shared flags, and nothing else |
| `Mqtt.Client.HandlePuback` | myprojects/gps_mqtt_tracker/src/tracker_mqtt.c:180-196 | The PUBACK callback: nothing for a foreign identifier |
| `Mqtt.Client.PublishLocation` | myprojects/gps_mqtt_tracker/src/tracker_mqtt.c:281-339 | The statements of the publish operation, with callbacks between them, give the specified state and result |
| `Mqtt.Client.ConnectBroker` | myprojects/gps_mqtt_tracker/src/tracker_mqtt.c:239-279 | The same for the connect operation |
| `Mqtt.Client.DisconnectBroker` | myprojects/gps_mqtt_tracker/src/tracker_mqtt.c:341-365 | The same for the disconnect operation |
| `Publishing.DrainRemovesConfirmed` | myprojects/gps_mqtt_tracker/src/main.c:119-132 | The publish loop removes exactly the oldest entries whose publishes returned 0, up to the first that did not, and nothing else of the backlog changes; it leaves the connection these publishes leave, the failed one included |
| `Publishing.DrainInv` | myprojects/gps_mqtt_tracker/src/main.c:119-132 | The loop keeps the backlog invariant and never sets the attempt flag |
| `Publishing.DrainBacklog` | myprojects/gps_mqtt_tracker/src/main.c:115-137 | The loop over the array backlog and the MQTT module, the same in both applications, removes what the specified drain removes |
| `Tracker.RunKeepsBacklog` | myprojects/gps_mqtt_tracker/src/main.c:80-158 | Over whole runs of the automatic application, whatever fails: the backlog invariant holds, every acquired fix was offered to it in order, and the uplink states are only entered with something to send |
| `Tracker.StepKeepsBacklog` | myprojects/gps_mqtt_tracker/src/main.c:81-157 | The same for one state |
| `Tracker.WaitForGnssTable` | myprojects/gps_mqtt_tracker/src/main.c:82-99 | A fix is buffered at once and opens the uplink; without one nothing changes and low power is next |
| `Tracker.ConnectLteTable` | myprojects/gps_mqtt_tracker/src/main.c:101-106 | MQTT is next if and only if the registration is held or activation succeeds and one is handled; LTE is activated if and only if none is held |
| `Tracker.ConnectMqttTable` | myprojects/gps_mqtt_tracker/src/main.c:108-113 | The publish state is next if and only if the request and the last CONNACK are accepted, the disconnect otherwise |
| `Tracker.PublishTable` | myprojects/gps_mqtt_tracker/src/main.c:115-138 | The publish state removes what its publishes confirmed, leaves the connection they leave, and moves on |
| `Tracker.DisconnectTable` | myprojects/gps_mqtt_tracker/src/main.c:140-146 | Low power is next however the disconnect ends |
| `Tracker.EnterLowPowerTable` | myprojects/gps_mqtt_tracker/src/main.c:148-157 | LTE is deactivated if and only if PSM is given up; the next cycle begins either way |
| `Tracker.StartUpExactly` | myprojects/gps_mqtt_tracker/src/main.c:37-67 | Start-up succeeds if and only if every call but the PSM request does, and issues just these radio commands |
| `Tracker.Loop.constructor` | myprojects/gps_mqtt_tracker/src/tracker_backlog.c:34-37 | The static state before start-up |
| `Tracker.Loop.Initialize` | myprojects/gps_mqtt_tracker/src/main.c:37-67 | Start-up: running exactly when modem, MQTT and GNSS start all succeed |
| `Tracker.Loop.RunState` | myprojects/gps_mqtt_tracker/src/main.c:81-157 | One state of the loop over array, modem and MQTT module gives the specified device and next state, failing exactly when an addition meets the guard of the modulo by zero |
| `Tracker.Loop.RunLoop` | myprojects/gps_mqtt_tracker/src/main.c:80-158 | The main loop over array, modem and MQTT module gives the run the theorems above are about |
| `Modem.NoLostWakeup` | myprojects/gps_mqtt_tracker/src/tracker_modem.c:272-298 | For every placement of PSM entries and exits: past the registration and grant check low-power entry deactivates LTE if and only if the PSM flag was clear at the check and at the timeout and no PSM entry was handled between the semaphore reset and the timeout; otherwise it leaves the radio alone and returns 0 |
| `Modem.AwakeOnSuccess` | myprojects/gps_mqtt_tracker/src/tracker_modem.c:282-293 | Returning 0 with LTE untouched and the modem awake happens if and only if a PSM entry after the reset was followed by an exit, the flag being clear at the check |
| `Modem.AwakeOnSuccessHappens` | myprojects/gps_mqtt_tracker/src/tracker_modem.c:282-293 | A concrete case of it |
| `Modem.UploadPrepared` | myprojects/gps_mqtt_tracker/src/tracker_modem.c:243-270 | The radio is left alone if and only if the registration is held; success otherwise means the activation was accepted and a registration handled after the semaphore reset; which error otherwise; and the flags are those of the events seen |
| `Modem.ReturnClears` | myprojects/gps_mqtt_tracker/src/tracker_modem.c:300-317 | After a return to GNSS, successful or not, registration, grant and PSM flag are what the events since they were cleared leave, whatever they were before |
| `Modem.UploadAfterDeactivation` | myprojects/gps_mqtt_tracker/src/tracker_modem.c:243-317 | An upload after a deactivation activates LTE anew, unless a registration was handled since and is the last word |
| `Modem.EntryFlags` | myprojects/gps_mqtt_tracker/src/tracker_modem.c:272-298 | The flags a low-power entry leaves: those of the events it saw, or after a deactivation those of the events since |
| `Modem.InitializeExactly` | myprojects/gps_mqtt_tracker/src/tracker_modem.c:195-241 | Initialization succeeds if and only if every call but the PSM request does, and issues just these commands |
| `Modem.ReturnLogs` | myprojects/gps_mqtt_tracker/src/tracker_modem.c:300-317 | Returning to GNSS issues exactly one command, whatever events come, and returns its result |
| `Modem.TakeEffect` | myprojects/gps_mqtt_tracker/src/tracker_modem.c:262-293 | A wait succeeds if and only if the semaphore was given before or during it, and leaves the flags the events leave |
| `Modem.TakeConsumes` | myprojects/gps_mqtt_tracker/src/tracker_modem.c:262-290 | A wait uses up what it waited for: given at most once in all, the semaphore is not given afterwards |
| `Modem.HandleAllEffect` | myprojects/gps_mqtt_tracker/src/tracker_modem.c:110-193 | What any sequence of LTE events leaves in every flag and semaphore: the last registration, update, entry or exit decides; no event issues a command |
| `Modem.Radio.HandleEvent` | myprojects/gps_mqtt_tracker/src/tracker_modem.c:110-193 | The event handler and the listener of the button-stepped application on their flags |
| `Modem.Radio.Start` | myprojects/gps_mqtt_tracker/src/tracker_modem.c:195-241 | Initialization: a failed PSM request is tolerated, any other failure ends it |
| `Modem.Radio.OpenUplink` | myprojects/gps_mqtt_tracker/src/tracker_modem.c:243-270 | The statements of the upload preparation, with events between them, give the specified state and result |
| `Modem.Radio.Sleep` | myprojects/gps_mqtt_tracker/src/tracker_modem.c:272-298 | The same for the low-power entry |
| `Modem.Radio.DeactivateLte` | myprojects/gps_mqtt_tracker/src/tracker_modem.c:300-317 | The same for the return to GNSS |
| `StateControl.RadioExclusion` | myprojects/gps_mqtt_stateControl/src/main.c:164-348 | At no instant of any run, whatever call fails, may LTE be active while GNSS may be running; and GNSS left to be stopped at a step boundary means ENTER_LOW_POWER is next |
| `StateControl.Parked` | myprojects/gps_mqtt_stateControl/src/main.c:256-325 | In WAIT_FOR_LOW_POWER, LOW_POWER and WAIT_FOR_GNSS, LTE is deactivated, GNSS stopped, no PSM request outstanding and no MQTT attempt open; an outstanding PSM request at a step boundary means DISABLE_PSM is next; uplink states have a non-empty backlog |
| `StateControl.ExclusiveAlways` | myprojects/gps_mqtt_stateControl/src/main.c:170-221 | The exclusion holds at every prefix of the command log, not only at step boundaries |
| `StateControl.GnssStepSafe` | myprojects/gps_mqtt_stateControl/src/main.c:170-214 | A GNSS session keeps the safety invariant, and exclusion even if it never ends |
| `StateControl.EnablePsmSafe` | myprojects/gps_mqtt_stateControl/src/main.c:265-298 | PSM negotiation keeps the exclusion from any state without GNSS |
| `StateControl.DisablePsmSafe` | myprojects/gps_mqtt_stateControl/src/main.c:300-316 | PSM withdrawal advances only with LTE deactivated and the request withdrawn |
| `StateControl.LowPowerSafe` | myprojects/gps_mqtt_stateControl/src/main.c:327-345 | The cleanup state keeps the safety invariant on every failure |
| `StateControl.StartUpSafe` | myprojects/gps_mqtt_stateControl/src/main.c:140-161 | Start-up that succeeds ends in a safe state |
| `StateControl.StartUpExactly` | myprojects/gps_mqtt_stateControl/src/main.c:140-161 | Start-up succeeds if and only if every call but the first PSM request does, and issues just these radio commands |
| `StateControl.StepSafe` | myprojects/gps_mqtt_stateControl/src/main.c:164-348 | Every step keeps the safety invariant |
| `StateControl.SessionTable` | myprojects/gps_mqtt_stateControl/src/main.c:170-214 | Where the GNSS state leads and whether it buffers a report, for every failed deactivation, failed start and end of a session; GNSS stays to be stopped exactly when the stop failed |
| `StateControl.SleepConfirmedExactly` | myprojects/gps_mqtt_stateControl/src/main.c:279-292 | After the PSM request LTE is left alone if and only if the modem was last seen asleep; otherwise the last command deactivates it |
| `StateControl.ConnectLteTable` | myprojects/gps_mqtt_stateControl/README.md:36 | MQTT is next if and only if the registration is held or activation succeeds and one is handled; LTE is activated if and only if none is held |
| `StateControl.ConnectMqttTable` | myprojects/gps_mqtt_stateControl/README.md:37 | The publish state is next if and only if the request and the last CONNACK are accepted, the disconnect otherwise |
| `StateControl.PublishTable` | myprojects/gps_mqtt_stateControl/README.md:38 | The publish state removes what its publishes confirmed, oldest first up to the first failure, leaves the connection they leave, and moves on |
| `StateControl.DisconnectTable` | myprojects/gps_mqtt_stateControl/README.md:39 | PSM is enabled next if and only if there was no attempt left or the disconnect was reported, retried otherwise |
| `StateControl.EnablePsmTable` | myprojects/gps_mqtt_stateControl/README.md:40 | The exact radio commands of a PSM negotiation, from call results, registrations and sleep events, and that PSM is disabled next |
| `StateControl.DisablePsmTable` | myprojects/gps_mqtt_stateControl/README.md:41 | Waiting is next if and only if LTE is deactivated and the request withdrawn, retried otherwise; the request is only withdrawn once LTE is off |
| `StateControl.WaitingTable` | myprojects/gps_mqtt_stateControl/README.md:42-43 | The two waiting states do nothing but move on |
| `StateControl.EnterLowPowerTable` | myprojects/gps_mqtt_stateControl/README.md:44 | The cleanup is retried if and only if the GNSS stop fails, or PSM is given up and the deactivation fails; GNSS is stopped first and LTE only touched once that is done |
| `StateControl.RetriedExactly` | myprojects/gps_mqtt_stateControl/src/main.c:327-345 | The same, from the flags at the start of the state |
| `StateControl.NegotiationLog` | myprojects/gps_mqtt_stateControl/src/main.c:265-298 | The commands of a PSM negotiation in order: each only if the one before succeeded, LTE activated only if no registration came by itself, and deactivated again unless the modem is seen asleep |
| `StateControl.SessionLog` | myprojects/gps_mqtt_stateControl/src/main.c:170-214 | LTE is always deactivated first, GNSS started if and only if that and its setup succeed, and asked to stop unless the session never ends; and exactly when it never ends |
| `StateControl.OneReport` | myprojects/gps_mqtt_stateControl/src/main.c:180-213 | A session ended by a press or the deadline buffers exactly one report: the last valid position it took, or a no-fix report if it took none; one ended by a queue error buffers nothing, except for a code that means no fix: then a no-fix report even with a position in hand |
| `StateControl.ReportWithoutSession` | myprojects/gps_mqtt_stateControl/src/main.c:180-199 | A failed start buffers nothing, except when its code is one of the two that mean a session without a fix: then a no-fix report is buffered |
| `StateControl.StepDescends` | myprojects/gps_mqtt_stateControl/src/main.c:164-348 | Every completed step lowers the rank, closes the cycle, or is one of three failed cleanups |
| `StateControl.Progress` | myprojects/gps_mqtt_stateControl/src/main.c:164-348 | A stretch that does not return to WAIT_FOR_GNSS is no longer than its starting rank plus its failed cleanups |
| `StateControl.CycleLength` | myprojects/gps_mqtt_stateControl/src/main.c:164-348 | Between two executions of WAIT_FOR_GNSS at most nine states are executed plus one for every failed cleanup |
| `StateControl.Controller.Initialize` | myprojects/gps_mqtt_stateControl/src/main.c:114-162 | Start-up: running exactly when the modem module, the PSM withdrawal and MQTT initialization all succeed |
| `StateControl.Controller.WaitForGnssState` | myprojects/gps_mqtt_stateControl/src/main.c:170-214 | The statements of the GNSS state over the array backlog give the specified device and next state, failing exactly when a report meets the guard of the modulo by zero |
| `StateControl.Controller.EnablePsmState` | myprojects/gps_mqtt_stateControl/src/main.c:265-298 | The statements of the PSM negotiation give the specified modem state |
| `StateControl.Controller.AwaitSleep` | myprojects/gps_mqtt_stateControl/src/main.c:279-292 | The sleep confirmation and its fallback give the specified modem state |
| `StateControl.Controller.DisablePsmState` | myprojects/gps_mqtt_stateControl/src/main.c:300-316 | The statements of the PSM withdrawal give the specified modem state and next state |
| `StateControl.Controller.EnterLowPowerState` | myprojects/gps_mqtt_stateControl/src/main.c:327-345 | The statements of the cleanup state give the specified device and next state |
| `StateControl.Controller.RunState` | myprojects/gps_mqtt_stateControl/src/main.c:164-348 | Any state gives the specified device and next state, with the same exception |
| `StateControl.Controller.Loop` | myprojects/gps_mqtt_stateControl/src/main.c:366-382 | The states executed, one for each press, give the run all theorems above are about |
| `ButtonGate.PressAccounting` | myprojects/gps_mqtt_stateControl/src/main.c:366-382 | Over all interleavings every press is counted once: one for each executed state, at most one pending at READY, at most one for each session, the rest discarded; and a pending step and an armed gate never coexist |
| `ButtonGate.BusyPressDiscarded` | myprojects/gps_mqtt_stateControl/src/main.c:74-82 | A press while busy changes nothing but the discard count; it is accepted only at READY or in a session |
| `ButtonGate.OnlyPressesCount` | myprojects/gps_mqtt_stateControl/src/main.c:74-82 | A release, another key or an unfinished report changes nothing |
| `ButtonGate.ReadyPressExecutes` | myprojects/gps_mqtt_stateControl/src/main.c:373-381 | A press at READY executes the state that is waiting |
| `ButtonGate.PollEndsExactly` | myprojects/gps_mqtt_stateControl/src/tracker_gnss.c:285-296 | A turn of the session loop ends the session if and only if a press is pending or the deadline has passed, and consumes the press |
| `ButtonGate.SessionOpens` | myprojects/gps_mqtt_stateControl/src/main.c:183-185 | Opening a session arms the gate anew with no earlier press pending |
| `ButtonGate.SessionCloses` | myprojects/gps_mqtt_stateControl/src/main.c:184-188 | A press in a session closes it and brings the thread back to READY with the gate armed, nothing pending and no state executed |
| `ButtonGate.HaltedForever` | myprojects/gps_mqtt_stateControl/src/main.c:374-379 | Once the wait for a press has failed no state is ever executed again |
| `ButtonGate.SessionPressNeverCarriesOver` | myprojects/gps_mqtt_stateControl/src/main.c:182-189 | From anywhere in a state or its session, whatever was pressed so far, no further state is executed until a further press: a press that ends a session, or races its deadline, never starts the next state |
| `ButtonGate.EachPressOnce` | myprojects/gps_mqtt_stateControl/src/main.c:74-82 | Presses are neither lost nor counted twice |
| `ButtonGate.RunKeeps` | myprojects/gps_mqtt_stateControl/src/main.c:366-382 | The gate invariant holds after every interleaving |
| `Gnss.SessionResult` | myprojects/gps_mqtt_stateControl/src/tracker_gnss.c:269-315 | A session is over exactly when a press, the deadline or a queue error has come, with the code of the turn that ended it; what it has is the last valid frame it took, all of them arrived after the purge |
| `Gnss.ResultMeaning` | myprojects/gps_mqtt_stateControl/src/tracker_gnss.c:287-306 | 0 is returned if and only if a press or the deadline ended a session that has a position; after either, a no-fix code means there is none; otherwise a no-fix code comes with a position if and only if it is the error of the queue itself |
| `Gnss.FixWithNoFixCode` | myprojects/gps_mqtt_stateControl/src/tracker_gnss.c:298-306 | A concrete session that returns -ENODATA with a position in hand, for a queue that returns that code |
| `Gnss.DequeuedOrder` | myprojects/gps_mqtt_stateControl/src/tracker_gnss.c:121-133 | What a session takes is, in order, part of what was queued or arrived; overflow only drops frames |
| `Gnss.PutAllOrder` | myprojects/gps_mqtt_stateControl/src/tracker_gnss.c:129-132 | A full queue drops the newcomer and never reorders |
| `Gnss.FirstTwoStay` | myprojects/gps_mqtt_stateControl/src/tracker_gnss.c:129-132 | The queue is the first two of what it held and what was put into it |
| `Gnss.TakesOldest` | myprojects/gps_mqtt_stateControl/src/tracker_gnss.c:298-313 | A turn that does not end the session takes the oldest frame whenever there is one |
| `Gnss.NothingSkipped` | myprojects/gps_mqtt_stateControl/src/tracker_gnss.c:284-314 | As long as the queue never overflows, what a session takes is the beginning of what arrives |
| `Gnss.CollectKeepsAll` | myprojects/gps_mqtt_stateControl/src/tracker_gnss.c:284-314 | The kept frame depends on exactly the frames taken, in order |
| `Gnss.KeepAllIsLastValid` | myprojects/gps_mqtt_stateControl/src/tracker_gnss.c:310-313 | The kept frame is the last valid one: a later invalid frame never overwrites it |
| `Gnss.LastValidIsUnique` | myprojects/gps_mqtt_stateControl/src/tracker_gnss.c:310-313 | That frame is determined by the frames taken |
| `Gnss.CollectEnds` | myprojects/gps_mqtt_stateControl/src/tracker_gnss.c:284-306 | A session ends at the first turn with a press, the deadline or a queue error, with the code for it |
| `Gnss.Receiver.HandlePvt` | myprojects/gps_mqtt_stateControl/src/tracker_gnss.c:121-133 | The position event: dropped on a read error or a full queue, otherwise appended |
| `Gnss.Receiver.CollectUntilStop` | myprojects/gps_mqtt_stateControl/src/tracker_gnss.c:269-315 | The collector loop over the shared queue gives the specified session |
| `InfluxWriter.ClearIsPermanent` | myprojects/monitor-application/ESP32-power-monitor/host/influxdb_store.py:164-180 | In every interleaving, once a clear has deleted the data no frame at or below its cutoff is written, provided the clock does not run backwards between clears |
| `InfluxWriter.ClearTakesHold` | myprojects/monitor-application/ESP32-power-monitor/host/influxdb_store.py:164-180 | A clear that deleted the data takes hold at once, also when it then fails: until the next clear only frames newer than its cutoff are written |
| `InfluxWriter.ResurrectsExactly` | myprojects/monitor-application/ESP32-power-monitor/host/influxdb_store.py:164-192 | Without that proviso: a flush writes a frame some earlier cutoff covers if and only if the store accepts it and the batch holds such a frame newer than the last cutoff |
| `InfluxWriter.ResurrectionPossible` | myprojects/monitor-application/ESP32-power-monitor/host/influxdb_store.py:157-211 | From any reachable state with the worker running, some continuation without a further clear writes a frame an earlier clear covers if and only if some cutoff is later than the last one |
| `InfluxWriter.NewWrites` | myprojects/monitor-application/ESP32-power-monitor/host/influxdb_store.py:176-192 | Without a further clear every later write holds only frames newer than the last cutoff |
| `InfluxWriter.CanBeWritten` | myprojects/monitor-application/ESP32-power-monitor/host/influxdb_store.py:194-211 | A frame newer than the last cutoff that the worker has before it can still be written |
| `InfluxWriter.ClockSetBack` | myprojects/monitor-application/ESP32-power-monitor/host/influxdb_store.py:164-180 | A concrete run in which it happens |
| `InfluxWriter.DatabaseIsNew` | myprojects/monitor-application/ESP32-power-monitor/host/influxdb_store.py:164-180 | Whatever the clock does, the database holds only frames newer than the last cutoff |
| `InfluxWriter.NothingLost` | myprojects/monitor-application/ESP32-power-monitor/host/influxdb_store.py:157-211 | Accepted frames are resolved in submission order; what was written is, in order, those resolved as stored; when the worker has exited every frame accepted by then is resolved; only frames that a clear covers, or stamped at or before the initial cutoff 0, are discarded |
| `InfluxWriter.BatchSize` | myprojects/monitor-application/ESP32-power-monitor/host/influxdb_store.py:203-210 | Every batch written has 1 to 100 frames |
| `InfluxWriter.WaitsForFour` | myprojects/monitor-application/ESP32-power-monitor/host/influxdb_store.py:203 | As long as no stop comes and no flush interval is over, a flush waits for four frames |
| `InfluxWriter.NoMoreThanFour` | myprojects/monitor-application/ESP32-power-monitor/host/influxdb_store.py:203 | With four frames the worker flushes without waiting for the interval |
| `InfluxWriter.FillsUp` | myprojects/monitor-application/ESP32-power-monitor/host/influxdb_store.py:204-208 | From the decision to flush on, the worker fills its batch with everything queued, oldest first, up to 100 frames |
| `InfluxWriter.ExitNeedsStop` | myprojects/monitor-application/ESP32-power-monitor/host/influxdb_store.py:197 | The worker leaves its loop only after a stop |
| `InfluxWriter.StoppingExactly` | myprojects/monitor-application/ESP32-power-monitor/host/influxdb_store.py:160-161 | The writer is stopping if and only if a stop was requested |
| `InfluxWriter.FailedClearIsNoClear` | myprojects/monitor-application/ESP32-power-monitor/host/influxdb_store.py:166-171 | A clear that deleted nothing leaves every later state as if it had not been called |
| `InfluxWriter.CloseDrains` | myprojects/monitor-application/ESP32-power-monitor/host/influxdb_store.py:194-211 | After the stop, for every interleaving without further submissions, whatever the store answers, whenever the interval is over and whatever is cleared: the worker takes at most six steps for each frame left and seven more, can always take another until it has exited, and then queue and batch are empty and every accepted frame is resolved |
| `InfluxWriter.RunKeeps` | myprojects/monitor-application/ESP32-power-monitor/host/influxdb_store.py:157-211 | The invariant holds after every interleaving of submissions, clears and the worker |
| `InfluxWriter.FreshKeeps` | myprojects/monitor-application/ESP32-power-monitor/host/influxdb_store.py:178 | The filter keeps exactly the frames newer than the cutoff |
| `InfluxWriter.BatchWriter.SubmitFrame` | myprojects/monitor-application/ESP32-power-monitor/host/influxdb_store.py:157-158 | Accepted exactly when the queue has room, a size of 0 meaning no limit |
| `InfluxWriter.BatchWriter.Close` | myprojects/monitor-application/ESP32-power-monitor/host/influxdb_store.py:160-162 | The stop is requested |
| `InfluxWriter.BatchWriter.ClearAll` | myprojects/monitor-application/ESP32-power-monitor/host/influxdb_store.py:164-174 | The cutoff moves exactly when the data was deleted, also when the clear then fails |
| `InfluxWriter.BatchWriter.FilterFresh` | myprojects/monitor-application/ESP32-power-monitor/host/influxdb_store.py:178 | The comprehension as a loop gives the specified filter |
| `InfluxWriter.BatchWriter.WriteBatch` | myprojects/monitor-application/ESP32-power-monitor/host/influxdb_store.py:182-192 | Written once if one of three attempts succeeds, not at all otherwise |
| `InfluxWriter.BatchWriter.FlushBatch` | myprojects/monitor-application/ESP32-power-monitor/host/influxdb_store.py:176-180 | Filter and write give the specified step |
| `InfluxWriter.BatchWriter.WorkerStep` | myprojects/monitor-application/ESP32-power-monitor/host/influxdb_store.py:197-206 | The statements of the worker loop give the specified steps |
| `InfluxWriter.BatchWriter.Interleave` | myprojects/monitor-application/ESP32-power-monitor/host/influxdb_store.py:157-211 | Any interleaving on the writer gives the run all theorems above are about |
| `Battery.LevelPptt` | samples/tracker/src/battery/app_battery.c:225-250 | For every curve decreasing in both fields and ending at 0 the walk stays inside the curve, the divisor is never 0, nothing wraps, and the result is the level the curve assigns, defined without the computation |
| `Battery.InterpolateIsExact` | samples/tracker/src/battery/app_battery.c:246-249 | The 32-bit expression is the line through the two points, rounded down |
| `Battery.MachineQuotientIsExact` | samples/tracker/src/battery/app_battery.c:249 | With 16-bit fields neither operands nor product leave 32 bits, and the quotient is at most the rise |
| `Battery.Monotone` | samples/tracker/src/battery/app_battery.c:225-250 | A higher voltage never reads as a lower level, across segments and caps |
| `Battery.BetweenNeighbours` | samples/tracker/src/battery/app_battery.c:236-249 | The level lies between those of the two neighbouring points |
| `Battery.ExactAtPoints` | samples/tracker/src/battery/app_battery.c:235-249 | At a point of the curve the level is that point's, if and only if no earlier point has the same voltage and a different level |
| `Battery.LevelIsUnique` | samples/tracker/src/battery/app_battery.c:225-250 | Curve and voltage determine the level |

## Left out

- ButtonGate.RunKeeps: the gate is a transition system over values, because its point is the
  interleaving of two threads; update in place is not captured there.
- Delivery.RunKeeps: for the same reason a transition system over values; `PublishTrace`, `LoopTrace`
  and `Simulation` tie it to the `Mqtt` module and to `Tracker`. LTE and MQTT connections are outcomes there.
- StateControl.Controller.Loop: the button wait before each state and its failure exit are those of
  `ButtonGate`.
- InfluxWriter.BatchWriter.Close: the join with its timeout; what it waits for is `CloseDrains`.
- InfluxWriter.BatchWriter.Interleave: the worker loop is cut into atomic steps with a program
  counter, so that other threads can come in between; its local batch is a field.
- Exceptions other than `OSError` in the worker, which would end its thread.
- The timing of retries, timeouts and flush intervals: whether one has passed is an argument.
- QoS 0 delivery: success there means only that the send was accepted.
- Formatting of payloads with floating point, TLS credentials and client identifiers.
- The real modem, GNSS receiver, MQTT helper and kernel, and interleavings inside a callback.
- `tracker_gnss_wait_for_fix` of the automatic application: its outcome is an argument.
- The inside of MQTT initialization: only whether it fails.
- The GNSS setup calls before the start: only whether one fails.
- Status strings, LED patterns, log output, GNSS diagnostics, and LTE events that only log.
- Serial capture, HTTP servers, the Postgres store, the HTTP calls of the InfluxDB store and the web pages.
- The other samples and the course exercises: thin wrappers over libraries.
