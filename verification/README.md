# baize, modelled and proved in Dafny

This project models the parts of the baize network library whose correctness is hard to see
from the code, and proves what they promise.  It covers the hierarchical timer wheel, the
asynchronous double-buffered logger, the coroutine scheduler with edge-triggered parking, the
STUN codec with its CRC-32, HTTP framing over the growable buffer, and the DTLS-SRTP session
with the RTP layout.  `dafny verify dfyconfig.toml` checks all of it.

Each component has a model on values or a transition system, where the theorems over whole
runs live, and classes or methods in the form of the C++ code that are proved to do what the
model does.

| files | what they hold |
|---|---|
| WheelModel, CascadeOrder, FarTimers, Periods, TimeWheel | the wheel on sequences with the theorems about every run; which arming decides when a cascaded list fires; which far deadlines are served; how periodic timers are armed again; the intrusive linked lists in memory, refining the model |
| LoggerModel, Logger | all interleavings of producers and the logging thread; the fixed buffers and the logger that owns them |
| SchedulerModel, Runtime | all interleavings of kernel, loop and routines; the loops between two suspensions |
| Bytes, Crc32, Stun, StunWire | byte order, checksum, STUN parse and pack; the same packets in the numbers of the RFC |
| NetBuffer, Text, HttpModel, HttpWire, Http | the buffer as a queue, string slices, framing and its theorems; messages taken apart by concatenation; the message and stream objects |
| Rtp, DtlsModel, Dtls | the RTP layout, the session state machine with the packet gate, the two objects |

## Where the code is weaker than it looks

The code is modelled as it is written.  Where an expected property is false, there is a lemma
with a concrete input and the exact condition under which the property holds.

* A cascaded timer fires at the expiration of the first timer of its list, not at its own
  (`WheelModel.LateFiring`, `WheelModel.WhenFiringIsExact`).  That timer is the one of the
  latest arming for the block (`CascadeOrder.FiringFollowsTheLatestArming`).  What holds for
  every deadline below 65536 ms is accuracy to the 256 ms block; a deadline less than 256 ms
  ahead is met exactly.
* The cascade uses the index of ring 1 for rings 2 and 3 as well.  A timer armed 65536 ms or
  more ahead on an empty wheel fires if and only if its deadline is in the first 65536 ms of
  its period of 2^24 ms and, when it is 2^24 ms or more ahead, in the first 2^24 ms of its
  period of 2^32 ms (`FarTimers.FarTimerFiresIff`).
* `Stop` does not drain the logger (`LoggerModel.StopDoesNotDrain`): a record leaves the queue
  if and only if a swap of the thread follows it (`LoggerModel.RecordLeavesIffSwapped`), and the
  file of a finished thread is complete if and only if nothing was left over and no dropped
  buffer held text (`LoggerModel.DrainedExactlyWhen`).  Batches of more than 25 buffers lose
  all but two (`LoggerModel.LossIsExactlyTheDroppedBuffers`).
* Two readers on one park get in each other's way: an untimed first one is stranded for good; a
  timed first one comes back by its timer, and that strands an untimed second one
  (`SchedulerModel.SecondReaderStrandsOne`, `SchedulerModel.StrandedForever`).
* `Pack` does not pad USERNAME, so `Parse` refuses its output unless the length is a multiple
  of four (`Stun.PackedIsAccepted`); its final size check also fires when the buffer already
  held bytes (`Stun.SizeCheckFiresIff`).  An error code survives exactly below 25600
  (`Stun.FreshRoundTrip`).
* A DTLS timer that fires when OpenSSL sees nothing expired is not started again, so an
  unfinished handshake can be left without a timer (`DtlsModel.TimerCanStop`); when the timer
  runs is stated exactly (`DtlsModel.SessionsFailAndWaitExactlyWhen`).
* `Decode` never stores the last header line (`HttpModel.RoundTrip`), refuses a message whose
  Content-Length is the last one (`HttpModel.LengthLastIsRefused`), and the outcome depends on
  how the stream is cut if and only if the stream has a message without header lines that is
  followed by CRLF (`HttpModel.SplitsAgreeIffClear`).

The comment in time_wheel.h promises deadlines of up to 49 days; the code serves those below
65536 ms and few others, and the model follows the code.

## Model

| member | source | states |
|---|---|---|
| WheelModel.EveryTimerFiresOnceInItsBlock | kernel/time/time_wheel.cc:58-144 | in every run whose armings are 1 to 65535 ms ahead and whose periods are 256 to 65280 ms, the linked timers are exactly the armed ones that neither fired nor were stopped, each once in its home slot; every firing is inside the 256 ms block of its expiration; nothing pending is overdue |
| WheelModel.FiringAnswersOneArming | kernel/time/time_wheel.cc:68-144 | every firing answers exactly one arming, the last event about that timer, in the same block; an arming less than a block ahead is moved by no cascade and fires exactly at its expiration, any other is moved by exactly one cascade and fires at the tick of that |
| WheelModel.WhenFiringIsExact | kernel/time/time_wheel.cc:68-144 | an arming less than a block ahead fires exactly; any other fires at the expiration of the first timer of the one list it was cascaded in, so exactly when it was that first timer itself, and otherwise if and only if the first had the same expiration |
| CascadeOrder.FiringFollowsTheLatestArming | kernel/time/time_wheel.cc:21-144 | the same from the armings alone, in every run: the first timer is the one of the latest arming a block or more ahead into that block that still stood at the cascade |
| CascadeOrder.LatestArmingLeads | kernel/time/time_wheel.cc:28-37 | a cascade moves exactly the timers of the standing far armings of its block, latest first, and the latest sets the tick of all |
| CascadeOrder.CascadesAreStacks | kernel/time/time_wheel.cc:28-37 | in every run each block is cascaded at most once, no far arming comes after, and the list moved is the stack of its armings |
| WheelModel.CascadeFollowsItsFirst | kernel/time/time_wheel.cc:128-144 | a moved list is settled to the expiration of its first timer |
| WheelModel.EveryArmingIsAnswered | kernel/time/time_wheel.cc:68-103 | once the clock has passed the block of an expiration, that timer has fired, been stopped or been armed again |
| Periods.PeriodsAreCountedFromTheExpiration | kernel/time/timer.cc:21-30 | in every run a firing is followed by the commands of its callback and, for a period, by an arming for the expiration of the arming it answers plus the period, unless the callback has started its own timer |
| WheelModel.LateFiring | kernel/time/time_wheel.cc:128-144 | exact firing is false: of two timers due in 300 and 400 ms, armed in this order, both fire at 400 |
| FarTimers.FarTimerFiresIff | kernel/time/time_wheel.cc:68-144 | a timer armed 65536 ms to 2^32 ms ahead on an empty wheel ever fires if and only if the index of its deadline in ring 2 is 0 and, from 2^24 ms on, that in ring 3 as well, a condition on start and deadline alone; then it fires exactly at its deadline |
| FarTimers.StuckTimerNeverFires | kernel/time/time_wheel.cc:81-101 | on any wheel, whatever other timers and their callbacks do and however long the firing loops go on: a timer in a slot of ring 2 or 3 other than the first never fires in any run that does not start or stop that timer |
| FarTimers.ArmingGetsStuck | kernel/time/time_wheel.cc:105-126 | on any wheel, a deadline 65536 ms to 2^32 ms ahead whose index in its ring is not 0 puts its timer in such a slot |
| WheelModel.DisciplinedTurn | kernel/time/time_wheel.cc:68-103 | in the runs of the first row every turn is defined: no assertion fails and every firing loop ends, with the firings of that row |
| WheelModel.FireInv | kernel/time/time_wheel.cc:94-101 | the timer that fires was due at this tick, and all others stay linked where they were, whatever its callback starts or stops |
| WheelModel.FireShrinks | kernel/time/time_wheel.cc:94-101 | every turn of the firing loop shortens the list of the tick, so the loop ends |
| WheelModel.DrainInv | kernel/time/time_wheel.cc:94-101 | the firing loop empties the slot of the tick, every firing on time |
| WheelModel.BeginTickInv | kernel/time/time_wheel.cc:74-92 | a cascade moves timers of the block that begins only, as one list, and changes no membership |
| WheelModel.AddInv | kernel/time/time_wheel.cc:21-38 | adding links a timer once, into the slot its deadline will be looked for in |
| WheelModel.UnlinkInv | kernel/time/time_wheel.cc:40-56 | deleting a timer forgets its arming and no other |
| WheelModel.FindSlotIsHome | kernel/time/time_wheel.cc:105-126 | every deadline in range gets the slot that the tick or the cascade of its block will visit |
| TimeWheel.SpliceKeepsLinks | kernel/time/time_wheel.cc:47-55 | the pointer writes of DelTimer keep all lists acyclic, disjoint and with prev and next inverse, and take out one timer |
| TimeWheel.PushKeepsLinks | kernel/time/time_wheel.cc:28-37 | the pointer writes of AddTimer keep all lists well linked and put one timer in front |
| TimeWheel.JoinKeepsLinks | kernel/time/time_wheel.cc:130-143 | the pointer writes of MoveTimerList keep all lists well linked and conserve the timers |
| WheelModel.CascadeIsSafe | kernel/time/time_wheel.cc:135-136 | the assertion of MoveTimerList holds at every cascade of every such run |
| TimeWheel.Wheel.constructor | kernel/time/time_wheel.cc:13-17 | 1024 empty lists at the current time |
| TimeWheel.Wheel.FindHead | kernel/time/time_wheel.cc:105-126 | the head of the slot of the model, or null when the deadline has passed or is too far |
| TimeWheel.Wheel.DelTimer | kernel/time/time_wheel.cc:40-56 | the lists stay valid and hold what they held without the timer |
| TimeWheel.Wheel.AddTimer | kernel/time/time_wheel.cc:21-38 | the lists stay valid; the timer is linked once, in front of the slot of its deadline |
| TimeWheel.Wheel.MoveTimerList | kernel/time/time_wheel.cc:128-144 | the whole list goes behind the list of its first timer's slot; nothing is lost |
| TimeWheel.Wheel.Start | kernel/time/timer.cc:13-17 | sets the deadline and links the timer accordingly |
| TimeWheel.Wheel.Execute | kernel/time/timer.cc:13-19 | any sequence of starts and stops by a callback does to the lists what it does in the model |
| TimeWheel.Wheel.Fire | kernel/time/time_wheel.cc:95-101 | unlink, callback, re-arm on the old expiration: what the model's firing does |
| TimeWheel.Wheel.BeginTick | kernel/time/time_wheel.cc:74-92 | one millisecond with its cascade does what the model does, for all deadlines on which the assertion of MoveTimerList holds |
| TimeWheel.Wheel.Tick | kernel/time/time_wheel.cc:73-102 | a tick whose firing loop ends leaves the slot of the tick drained as in the model, whatever periods and deadlines the callbacks use |
| TimeWheel.Wheel.TurnWheel | kernel/time/time_wheel.cc:68-103 | the pointers end up as the model's turn says, for every turn that fails no assertion and ends |
| LoggerModel.EveryRunConservesRecords | kernel/log/async_logging.cc:37-141 | for every interleaving: the records smaller than a buffer are, in lock order, those of finished batches, of the batch in transit, of the queue and of the current buffer; the file holds of each finished batch exactly its first two buffers or all; no buffer has two owners; no assertion fails |
| LoggerModel.StepInv | kernel/log/async_logging.cc:37-137 | every critical section and every piece of thread work keeps the invariant and its assertions hold |
| LoggerModel.AssertsAlwaysHold | kernel/log/async_logging.cc:79-135 | both spares are present and empty at the loop head, the batch is not empty, and there is a buffer to recycle wherever one is needed |
| LoggerModel.StepUnshared | kernel/log/async_logging.cc:37-137 | moving buffers around never gives one two owners |
| LoggerModel.StepConserved | kernel/log/async_logging.cc:37-137 | no step loses, repeats or reorders an accepted record |
| LoggerModel.StepAccounted | kernel/log/async_logging.cc:100-138 | the file is always what the finished batches and the written part of the current one leave |
| LoggerModel.LossIsExactlyTheDroppedBuffers | kernel/log/async_logging.cc:100-116 | bytes of finished batches are written or were in dropped buffers, and the file is their full text if and only if those were empty |
| LoggerModel.FileIsTheReports | kernel/log/async_logging.cc:98-137 | at every point of every interleaving the file holds, batch by batch, one chunk per buffer for up to 25 buffers, and for more a notice of all but two and the first two; of the batch in transit as many of these lines as are written |
| LoggerModel.ReportText | kernel/log/async_logging.cc:100-116 | the text of a batch of up to 25 buffers is all its records, that of a longer one those of its first two buffers |
| LoggerModel.SmallBatchesAreWritten | kernel/log/async_logging.cc:100-116 | nothing is lost from batches of at most 25 buffers |
| LoggerModel.ExitIsFinal | kernel/log/async_logging.cc:79-141 | after the thread has left its loop the file no longer changes, whatever is appended |
| LoggerModel.DrainedExactlyWhen | kernel/log/async_logging.cc:64-141 | when the thread has left its loop, the file holds the text of every record smaller than a buffer if and only if no dropped buffer held text and nothing was left in the queue and the current buffer |
| LoggerModel.RecordLeavesIffSwapped | kernel/log/async_logging.cc:64-98 | a record has left the queue and the current buffer, at its place in lock order, if and only if a swap follows it, also a swap after Stop by a thread that had passed its loop test |
| LoggerModel.StopDoesNotDrain | kernel/log/async_logging.cc:64-69 | a record appended before Stop can stay unwritten; the two rows above say when |
| LoggerModel.Kept | kernel/log/async_logging.cc:100-111 | what is kept of a batch is a prefix of it and never empty |
| Logger.FixedBuffer.constructor | kernel/util/fixed_buffer.h:13-13 | an empty buffer of the given size |
| Logger.FixedBuffer.Append | kernel/util/fixed_buffer.h:17-23 | the bytes in the array are the concatenation of the appended records; one that would fill the array is left out |
| Logger.FixedBuffer.Reset | kernel/util/fixed_buffer.h:33-33 | empty again |
| Logger.AsyncLogging.constructor | kernel/log/async_logging.cc:12-28 | four distinct empty buffers and the initial state of the transition system |
| Logger.AsyncLogging.Append | kernel/log/async_logging.cc:37-53 | the object with its heap buffers takes the log step, so the conservation theorem holds of it; only the current and the next buffer are written |
| Logger.AsyncLogging.TestRunning | kernel/log/async_logging.cc:79-79 | the loop test takes the test or the exit step; Stop may come before or after it |
| Logger.AsyncLogging.SparesAreEmpty | kernel/log/async_logging.cc:80-82 | both spares are there with write index 0, and no buffer is left to write |
| Logger.AsyncLogging.Stop | kernel/log/async_logging.cc:64-69 | clears the flag and nothing else |
| Logger.AsyncLogging.ThreadMemoryIsItsOwn | kernel/log/async_logging.cc:98-137 | the buffers and arrays that the thread uses outside the lock are none of those that Append writes |
| Logger.AsyncLogging.SwapBuffers | kernel/log/async_logging.cc:80-98 | the assertions around the critical section hold and it takes the swap step, whether or not Stop has been called meanwhile |
| Logger.AsyncLogging.TrimBatch | kernel/log/async_logging.cc:100-111 | at most 25 buffers go on, else the first two with a notice of the rest |
| Logger.AsyncLogging.WriteNext | kernel/log/async_logging.cc:113-116 | the file gains the bytes of the next buffer, once and in order |
| Logger.AsyncLogging.RecycleBuffers | kernel/log/async_logging.cc:118-137 | the assertions hold, both spares are back and empty, and the batch is retired; only written buffers are reset |
| SchedulerModel.EveryRunIsSafe | kernel/runtime/event_loop.cc:42-130 | in every run: whoever waits for what is already there has an event on its way; the assertions of RoutineProcess hold; free and active routines partition the pool; tasks start in submission order |
| SchedulerModel.QuietLoopLeavesNobodyWaiting | kernel/runtime/event_loop.cc:64-78 | when no edge and no event is left, nobody is parked on a ready descriptor |
| SchedulerModel.DispatchesResume | kernel/runtime/event_loop.cc:64-78 | progress: a routine parked where the report at place i is for is resumed in every run with i + 1 dispatches, whatever else happens |
| SchedulerModel.ReadyRoutineIsResumed | kernel/runtime/event_loop.cc:64-78 | in every run, a routine parked on a ready descriptor whose edge has been delivered is resumed by as many dispatches as there are reports |
| SchedulerModel.NoSpawnIsLost | kernel/runtime/event_loop.cc:95-130 | in every run the tasks that routines hand to Do are, in this order, those the queue has given to Start and those still in it |
| SchedulerModel.TurnsResume | kernel/runtime/event_loop.cc:50-57 | progress: a routine that has yielded at place i of the queue is resumed in every run with i + 1 turns of the queue |
| SchedulerModel.TakeBatchOpensTheQueue | kernel/runtime/event_loop.cc:50-57 | with an empty batch the loop can take the whole queue in order and run its first entry |
| SchedulerModel.YieldQueues | kernel/runtime/async_park.cc:62-69 | a routine that yields is suspended and last in the queue |
| SchedulerModel.ExpireResumes | kernel/runtime/routine.cc:126-140 | a timeout makes its routine current, takes it off its park and leaves the others parked |
| SchedulerModel.OthersStay | kernel/runtime/routine.cc:96-140 | no step changes the mode of a routine that it neither resumes nor suspends |
| SchedulerModel.BytesAreConserved | kernel/net/tcp_stream.cc:60-140 | in every run what has arrived on a descriptor has been taken by calls or is still there |
| SchedulerModel.StepTransfers | kernel/net/tcp_stream.cc:60-140 | a call is refused with EAGAIN exactly when nothing is there and the descriptor is not hung up |
| SchedulerModel.StepInv | kernel/runtime/async_park.cc:34-99 | every kernel, loop and routine step keeps the invariant and is safe |
| SchedulerModel.OneResumeEach | kernel/runtime/routine.cc:96-140 | a suspended routine has exactly one place that can resume it, an idle or running one none but Start |
| SchedulerModel.DispatchInv | kernel/runtime/async_park.cc:71-99 | dispatching an event resumes the parked routine, if any, and strands no other |
| SchedulerModel.DeliverInv | kernel/runtime/event_loop.cc:65-78 | taking an edge from the kernel loses no wakeup |
| SchedulerModel.BlockInv | kernel/runtime/async_park.cc:34-60 | parking after EAGAIN loses no wakeup, also when data arrived in between |
| SchedulerModel.YieldInv | kernel/runtime/async_park.cc:62-69 | a tick yield queues its routine once |
| SchedulerModel.ExpireInv | kernel/runtime/routine.cc:126-140 | a timeout resumes a parked routine and leaves no stale pointer to it |
| SchedulerModel.BeginInv | kernel/runtime/routine_pool.cc:35-47 | the assertions at the head of RoutineProcess hold when Start calls an idle routine |
| SchedulerModel.FinishInv | kernel/runtime/routine_pool.cc:49-56 | a finished routine is free again and nothing can resume it but Start |
| SchedulerModel.StartTakesTasks | kernel/runtime/routine_pool.cc:25-33 | while Start loops no step adds a task, every call takes one, and it ends only without task or without free routine |
| SchedulerModel.StartIsBounded | kernel/runtime/routine_pool.cc:25-33 | one Start resumes at most as many routines as there are tasks |
| SchedulerModel.SecondReaderStrandsOne | kernel/runtime/async_park.cc:34-60 | a second routine on one side of a park breaks the invariant: an untimed first one is stranded at once; a timed first one is resumed by its timer, which clears the place of the second and strands that one if it is untimed |
| SchedulerModel.TwoReadersMeet | kernel/runtime/async_park.cc:34-60 | such states are reached, by a run of two tasks that read one descriptor, for an untimed and for a timed first one |
| SchedulerModel.StrandedForever | kernel/runtime/async_park.cc:87-99 | a stranded routine is never resumed again |
| Runtime.RoutinePool.RoutineProcess | kernel/runtime/routine_pool.cc:35-58 | pops the oldest task and moves only its own routine between the lists |
| Runtime.RoutinePool.Start | kernel/runtime/routine_pool.cc:25-33 | terminates with no task or no free routine; tasks start in order; the partition is kept; the routines it leaves busy are the smallest ids |
| Runtime.AsyncWrite | kernel/net/tcp_stream.cc:110-140 | whatever partial writes, signals and suspensions come, the bytes sent are the first ones of the buffer, as many as the kernel has taken, and the return value counts them; it ends exactly with the first failure or the write that takes the last byte, and says which |
| Bytes.GetPut2 | kernel/util/types.h:46-88 | reading sixteen bits gives back what was written |
| Bytes.PutGet2 | kernel/util/types.h:46-88 | writing what was read gives back the bytes |
| Bytes.GetPut4 | kernel/util/types.h:59-105 | thirty-two bits, likewise |
| Bytes.GetPut8 | kernel/util/types.h:67-118 | sixty-four bits, likewise |
| Bytes.NetworkOrder | kernel/util/types.h:46-118 | the most significant byte comes first |
| Crc32.CRC32 | kernel/crypto/util.cc:61-72 | the table-driven loop computes the bit-at-a-time reflected CRC with polynomial 0xEDB88320 of section 15.5 of RFC 5389 |
| Crc32.ShiftsByTable | kernel/crypto/util.cc:16-59 | eight steps of the shift register on any word are the table entry of its low byte and the rest moved down; so each of the 256 entries is eight steps |
| Crc32.TableStepIsRegister | kernel/crypto/util.cc:61-72 | one table step is eight register steps |
| Crc32.BurstDetected | kernel/crypto/util.cc:61-72 | strings that differ only inside 32 consecutive bits have different checksums |
| Crc32.FourByteBurstDetected | kernel/crypto/util.cc:61-72 | in particular for any change inside four consecutive bytes, so for any one byte |
| Crc32.CheckValue | kernel/crypto/util.cc:61-72 | the checksum of the digits 1 to 9 is 0xCBF43926, the check value of this CRC |
| Stun.ParseAcceptsExactly | webrtc/ice/stun_packet.cc:31-230 | a packet is accepted if and only if it is a header tiled exactly by padded attributes of the right sizes, MESSAGE-INTEGRITY followed by nothing but FINGERPRINT, FINGERPRINT last and right |
| Stun.ConformingIsParsed | webrtc/ice/stun_packet.cc:59-230 | the fields of an accepted packet are those of its header and attributes in order |
| Stun.ParsedIsConforming | webrtc/ice/stun_packet.cc:59-227 | the attributes of an accepted packet |
| Stun.StunPacket.Assign | webrtc/ice/stun_packet.cc:95-201 | a value of the wrong size is refused and changes nothing; a right one sets its field only |
| Stun.StunPacket.ParseAttributes | webrtc/ice/stun_packet.cc:59-212 | the loop ends on every packet of at most 65535 bytes, exactly at its end, so the comparison behind it never fails |
| Stun.StunPacket.Parse | webrtc/ice/stun_packet.cc:31-230 | return value and fields are those of the parse on values |
| Stun.PadIsAlign | kernel/util/types.h:123-131 | sixteen-bit alignment does not wrap on packets of at most 65535 bytes |
| Stun.StunPacket.Pack | webrtc/ice/stun_packet.cc:420-654 | the buffer holds its old bytes and the encoding of the message, with the length field at its front patched around the HMAC |
| Stun.PackBehindNothing | webrtc/ice/stun_packet.cc:420-654 | in an empty buffer that is the packet of the message |
| Stun.SizeCheckFiresIff | webrtc/ice/stun_packet.cc:650-653 | the size check at the end fails if and only if the buffer held another number of bytes before than USERNAME lacks padding |
| Stun.PackedLength | webrtc/ice/stun_packet.cc:420-654 | the computed size is the emitted one plus the missing USERNAME padding, so the final check fires only for that |
| Stun.PackedIsAccepted | webrtc/ice/stun_packet.cc:420-654 | Parse accepts Pack's bytes if and only if USERNAME needs no padding and the type begins below three |
| Stun.RoundTrip | webrtc/ice/stun_packet.cc:420-654 | Parse reads back every emitted field and leaves every other untouched |
| Stun.FreshRoundTrip | webrtc/ice/stun_packet.cc:31-230 | a new object recovers class, method, transaction id, username, priority, controlling, controlled, use-candidate, and the error code if and only if it is below 25600 |
| Stun.ErrorRoundTrip | webrtc/ice/stun_packet.cc:184-197 | class and number of an error code below 25600 give it back |
| Stun.MappedRoundTrip | webrtc/ice/stun_packet.cc:527-598 | xoring XOR-MAPPED-ADDRESS again gives port and host (section 15.2 of RFC 5389) |
| Stun.TamperingIsDetected | webrtc/ice/stun_packet.cc:214-227 | of two packets with the same FINGERPRINT that differ inside four consecutive bytes at most one is accepted |
| StunWire.PackedOnTheWire | webrtc/ice/stun_packet.cc:420-654 | for every message: length, cookie and id at their places; one attribute of each kind that the message calls for, by number, and no other: among them 0x0020 if and only if there is an address, the class is 2 and the method 1, with family, port and host xored; 0x0008 if and only if the class is not 3 and there is a password, with the digest of the bytes before it; 0x8028 last, with the CRC of all before it xored with 0x5354554E |
| StunWire.PackedReadsAsPacked | webrtc/ice/stun_packet.cc:420-654 | whatever attributes an accepted packet of Pack is taken apart into are these |
| StunWire.TilesAreUnique | webrtc/ice/stun_packet.cc:73-211 | bytes are tiled by attributes in at most one way |
| StunWire.BindingTypes | webrtc/ice/stun_packet.cc:467-490 | request, indication, success and error response of a Binding are 0x0001, 0x0011, 0x0101 and 0x0111 |
| StunWire.AcceptedIffDescribed | webrtc/ice/stun_packet.cc:14-230 | the packets accepted are those that some list of attributes describes, with the sizes, the order, the cookie and the fingerprint mask of the RFC as numbers |
| StunWire.AcceptedIsReadOff | webrtc/ice/stun_packet.cc:53-201 | each field is that of the last attribute of its number, or what it was |
| StunWire.BindingTypesRead | webrtc/ice/stun_packet.cc:53-58 | the four types of a Binding are read as method 1 and classes 0 to 3 |
| NetBuffer.Buffer.constructor | kernel/net/net_buffer.cc:17-25 | empty, with the given room |
| NetBuffer.Buffer.MoveDown | kernel/net/net_buffer.cc:130-132 | the element-by-element copy to the front keeps the contents although source and target overlap |
| NetBuffer.Buffer.MakeSpace | kernel/net/net_buffer.cc:124-138 | growth and compaction keep the contents and make the room; the assertion holds |
| NetBuffer.Buffer.EnsureWritableBytes | kernel/net/net_buffer.cc:116-122 | room for the length, contents kept |
| NetBuffer.Buffer.Append | kernel/net/net_buffer.cc:53-63 | the queue gains the bytes at the back |
| NetBuffer.Buffer.AddReadableLength | kernel/net/net_buffer.cc:65-82 | stored bytes become readable; a default-sized buffer keeps 1024 writable bytes |
| NetBuffer.Buffer.ReadFd | kernel/net/net_buffer.cc:27-51 | the queue gains exactly what was read across both iovecs |
| NetBuffer.Buffer.Take | kernel/net/net_buffer.cc:84-96 | the queue loses bytes at the front |
| NetBuffer.Buffer.TakeAll | kernel/net/net_buffer.cc:105-109 | empty |
| Text.Find | kernel/util/string_piece.cc:36-46 | the first occurrence, or the end exactly when there is none |
| Text.TrimSpace | kernel/util/string_piece.cc:48-68 | the trimmed slice |
| Text.TrimIsTrimmed | kernel/util/string_piece.cc:48-68 | what trimming takes off is space, on both ends, and no space is left there |
| Text.SpacesGo | kernel/util/string_piece.cc:48-68 | each of the six space characters goes, at either end |
| Text.ParseInt | kernel/util/string_piece.cc:120-139 | the longest run of digits and the number it denotes |
| Http.CheckCompleted | http/http_message.cc:33-70 | the length of the first message, 0 or -1 as the framing says |
| HttpModel.CompletedStable | http/http_message.cc:33-70 | a decided length does not change when more bytes arrive |
| HttpModel.DecodedStable | http/http_message.cc:72-119 | a decided outcome does not change when more bytes arrive, except from malformed to the exception |
| HttpModel.SplitsAgreeIffClear | http/http_stream.cc:31-74 | messages, bytes consumed and outcome are the same for every way of cutting the stream into reads if and only if no message of the stream is a headerless one followed by CRLF |
| HttpModel.HeaderedStreamsSplitAnywhere | http/http_stream.cc:31-74 | in particular for every stream whose messages all have a header line |
| HttpModel.SplitInvariance | http/http_stream.cc:31-74 | the same from any buffered prefix, unless the whole stream ends in the exception |
| HttpModel.ClearIffNotCrashed | http/http_message.cc:87-114 | the whole stream ends in the exception exactly when it has such a message |
| HttpModel.CrashDependsOnTheSplit | http/http_message.cc:110-114 | otherwise there is a cut that gives another outcome |
| HttpModel.CrashedIffHeaderless | http/http_message.cc:87-114 | the exception comes exactly from a message without header lines that is followed by CRLF |
| HttpModel.HeaderlessOutcome | http/http_message.cc:87-114 | a message without header lines is always refused |
| HttpModel.HeadersOfBlock | http/http_message.cc:87-108 | the header loop recovers every field of a block but the last |
| HttpModel.RoundTrip | http/http_message.cc:72-135 | decoding an encoded message followed by anything consumes exactly it and restores first line, body and every field but the last |
| HttpModel.LengthLastIsRefused | http/http_message.cc:47-48 | with Content-Length as last field the message is refused |
| HttpModel.EncodedIsComplete | http/http_message.cc:33-70 | the framing of an encoded message is its length |
| HttpWire.NoBlankLine | http/http_message.cc:36-37 | without an empty line there is no message yet |
| HttpWire.FramedWithoutLength | http/http_message.cc:39-43 | a head that does not mention Content-Length makes a message without body |
| HttpWire.FramedWithLength | http/http_message.cc:44-69 | for every text around the first mention of Content-Length: refused unless only spaces and digits are behind the colon, incomplete while the body is shorter than the number, else head, empty line and that many bytes |
| HttpWire.LengthWithoutColon | http/http_message.cc:51-52 | a line that mentions Content-Length without colon is refused |
| HttpWire.LengthWithoutEnd | http/http_message.cc:47-48 | and so is one that is the last of the head |
| HttpWire.DecodedOfText | http/http_message.cc:72-119 | every complete message of a first line and header lines: refused if and only if a line before the last has no colon, else first line, trimmed fields of these lines in order, and the body that framing says |
| Http.PutIsAssignment | http/http_message.cc:103-103 | storing a header is an assignment to a map |
| Http.PutAscends | http/http_message.cc:125-125 | the entries stay in the order in which the map is iterated |
| Http.StoredHeaders | http/http_message.cc:72-135 | a new message object decodes an encoded one to all its headers but the last |
| Http.HttpMessage.Decode | http/http_message.cc:72-119 | does the decoding on values; a return of 0 changes neither buffer nor message, only a decoded message is taken from the buffer, and a refused one leaves exactly its first line and the headers read so far |
| Http.HttpMessage.StoreHeaders | http/http_message.cc:87-108 | the loop stores the recovered fields and ends at the body |
| Http.HttpMessage.Encode | http/http_message.cc:121-135 | appends the encoding and returns the readable length |
| Http.HttpStream.AsyncRead | http/http_stream.cc:31-74 | plain or over TLS: returns the next message, error or end of the stream and leaves the rest buffered, for all reads that fit the room they are given; over TLS there is always room for 1024 bytes |
| Http.HttpStream.Admit | http/http_stream.cc:41-68 | both ways of reading append what was read to the contents |
| Http.ReceiveIsSession | http/http_stream.cc:31-74 | such calls in a row are the sessions of the split theorem |
| Http.ConnectionEnds | http/http_stream.cc:41-68 | a connection that ends or times out before a message is complete: the code of the read or -1, with everything read so far still buffered |
| Rtp.LayoutIsParsed | webrtc/rtp/rtp_packet.cc:26-137 | decoding inverts the layout of every packet of section 5.1 of RFC 3550 |
| Rtp.ParsedIsLayout | webrtc/rtp/rtp_packet.cc:26-137 | whatever is accepted is the layout of what is returned |
| Rtp.AcceptsExactlyLayouts | webrtc/rtp/rtp_packet.cc:26-137 | a byte string is accepted if and only if it is such a layout |
| Rtp.RtpPacket.Decode | webrtc/rtp/rtp_packet.cc:26-137 | stores header, CSRCs, extension header and payload of the packet; the length check at the end never fires |
| Rtp.RtpPacket.ReadList | webrtc/rtp/rtp_packet.cc:59-64 | the loop reads the announced CSRCs in order |
| DtlsModel.EverySessionWalksTheArrows | webrtc/dtls/dtls_transport.cc:142-359 | for every sequence of packets, timers and answers of OpenSSL the state goes NEW, CONNECTING, then CONNECTED or FAILED, and from CONNECTED to CLOSED only; FAILED and CLOSED are final |
| DtlsModel.StepInv | webrtc/dtls/dtls_transport.cc:142-359 | every event keeps that, also if a timer came between the sending of a reply and the status check |
| DtlsModel.TimeoutEffect | webrtc/dtls/dtls_transport.cc:312-359 | a handshake timeout can only fail an unfinished handshake |
| DtlsModel.SessionsFailAndWaitExactlyWhen | webrtc/dtls/dtls_transport.cc:142-359 | over every sequence of events: the session has failed if and only if a timeout of 5000 ms or more was reported, a retransmission failed, or OpenSSL reported its end or an error before the session was connected; the timer runs if and only if a timeout of 1 to 4999 ms was reported and since then it has not fired and the handshake has not finished |
| DtlsModel.StepIsDecided | webrtc/dtls/dtls_transport.cc:142-359 | exactly which events fail, connect and close a session, finish its handshake, and start and stop its timer |
| DtlsModel.TimerCanStop | webrtc/dtls/dtls_transport.cc:341-359 | a timer that fires when OpenSSL sees nothing expired leaves an unfinished handshake without a timer |
| DtlsModel.MastersAgree | webrtc/dtls/dtls_transport.cc:221-292 | on the same material the masters of client and server are each other's, and those of section 4.2 of RFC 5764 |
| DtlsModel.MastersByteByByte | webrtc/dtls/dtls_transport.cc:221-292 | the bytes of the exported material that make up the masters, for both profiles and roles |
| DtlsModel.KeysAreFinal | webrtc/dtls/dtls_transport.cc:199-207 | the masters are written once |
| DtlsModel.GateIsExact | webrtc/pc/peer_connection.cc:36-122 | in every state that packets and timers lead to, the sessions' master with which a packet is decrypted is the remote master of the one extraction; the guards that lead there are media, ICE and DTLS connected, sessions there or made |
| DtlsModel.EveryDecryptionIsGated | webrtc/pc/peer_connection.cc:36-122 | in every sequence of packets and timers no packet is decrypted unless ICE and DTLS are connected at that moment |
| DtlsModel.MediaIsNothingElse | webrtc/pc/peer_connection.cc:46-69 | media is never mistaken for STUN or DTLS |
| DtlsModel.Demultiplexing | webrtc/dtls/dtls_transport.cc:25-30 | the ranges of first and second byte that tell STUN, DTLS, RTP and RTCP apart, as in RFC 7983 |
| DtlsModel.ActionIsDecided | webrtc/pc/peer_connection.cc:36-122 | exactly which packets are handled, refused and ignored, and that only STUN changes the state of ICE |
| DtlsModel.ErrorsAreReturned | webrtc/pc/peer_connection.cc:72-143 | exactly when an error is returned |
| DtlsModel.PeersRunSessions | webrtc/pc/peer_connection.cc:46-76 | whatever packets and timers come, the transport of a peer is where a session gets to that is opened as a server and sees exactly the DTLS packets that arrive with ICE connected |
| DtlsModel.PeerStepInv | webrtc/pc/peer_connection.cc:78-99 | the SRTP sessions always use the masters of the one extraction |
| DtlsObjects.DtlsTransport.Initialize | webrtc/dtls/dtls_transport.cc:142-165 | the object starts the handshake as the state machine of the run theorem does |
| DtlsObjects.DtlsTransport.UpdateTimeout | webrtc/dtls/dtls_transport.cc:312-339 | the object arms its timer, retransmits or fails as the state machine does, for every answer of OpenSSL |
| DtlsObjects.DtlsTransport.HandleTimeout | webrtc/dtls/dtls_transport.cc:341-359 | likewise when the timer fires; the mutual recursion ends with the answers |
| DtlsObjects.DtlsTransport.CheckStatus | webrtc/dtls/dtls_transport.cc:187-219 | extracts the keys once, closes a connected session, fails any other |
| DtlsObjects.DtlsTransport.ExtractSrtpKey | webrtc/dtls/dtls_transport.cc:221-292 | the two master arrays end up as the key theorem needs them, or the state is left alone |
| DtlsObjects.DtlsTransport.ProcessDtlsPacket | webrtc/dtls/dtls_transport.cc:167-185 | a packet moves the object along the arrows, and not at all once it is not running |
| DtlsObjects.PeerConnection.ProcessPacket | webrtc/pc/peer_connection.cc:36-162 | the object acts as the exact gate does, returns its code also when decryption, RTP decoding or encryption fail, and its sessions keep the masters of the handshake |

## Left out

- Sockets, epoll_ctl, readv, write and files: their results are arguments; a descriptor is what is available and whether an edge is pending.
- OpenSSL, libsrtp, quiche and the context switch of boost: their answers are arbitrary arguments; HMAC-SHA1 is an uninterpreted function with 20-byte results.
- Timestamps: the model counts whole milliseconds, as `AddMs` and `ms()` do.
- WheelModel.EveryTimerFiresOnceInItsBlock: deadlines of 65536 ms and more are outside, because the cascade does not serve rings 2 and 3; what happens to them is stated by FarTimers.FarTimerFiresIff and FarTimers.StuckTimerNeverFires.
- TimeWheel.Wheel.TurnWheel: requires that the turn is defined, because otherwise the assertion of MoveTimerList fails or the firing loop does not end; what a callback does is a function of tick and timer, a list of starts and stops and a return value; other effects of callbacks are not modelled.
- TimeWheel.Wheel.Register: the set of timers the program has created is ghost state and is filled by this method.
- Logger.AsyncLogging: the lock and the thread are not objects; each method is one critical section or one piece of thread work, and LoggerModel interleaves them. The constructor also does what Start and the head of ThreadFunc do.
- LoggerModel: log file rolling, flushing and the text of the drop notice.
- SchedulerModel.EveryRunIsSafe: a park belongs to one descriptor that stays open and takes one reader and one writer; the calls of ScheduleRead from inside a routine at webrtc/pc/webrtc_server.cc:191 and :209 are outside; ticks yield at any time instead of every tenth check.
- SchedulerModel: WaitRead, CheckTicks, Call and Return suspend in the middle of a call, so event_loop.cc, async_park.cc and routine.cc are steps on values and not objects; update in place is not captured there.
- SchedulerModel: the order of the loop's phases is left free, which admits more runs than the program has; that the loop goes on to dispatch is an assumption of the progress statements.
- Runtime.AsyncWrite: the results of the write calls are a finite list; while it is exhausted the routine counts as suspended.
- Stun.StunPacket.Parse: packets of 65536 to 65555 bytes with a matching length field are outside, because the cursor of the source is cut to sixteen bits and its loop need not end there; a UDP datagram over IPv4 carries at most 65507 bytes.
- Stun.StunPacket.ParseAttributes: likewise.
- Stun.StunPacket.Pack: requires a message within the sizes of the format.
- Stun: views into the packet (StringPiece members) are copies of the bytes.
- NetBuffer.Buffer: the vector is a sequence that the methods reassign; memcpy into it is one assignment.
- Text.ParseInt: the number is not reduced to the width of an int; the source leaves larger values undefined.
- Http.HttpStream.AsyncRead: after a given number of reads the routine counts as suspended, because a stream need not end.
- Http: request lines, response lines, query strings and HttpStream::AsyncWrite.
- DtlsModel.StepInv: the recursion between UpdateTimeout and HandleTimeout follows a finite list of answers; an OpenSSL that always reports an expired timeout would not return.
- DtlsModel.GateIsExact: a failing SSL_new and the bytes of a packet after decryption are not modelled.
- RTCP report blocks, SDP, ICE candidates, WebRTCServer, BufferPool, quic, TLS streams, date strings, threads, signals: they would add plain members and no hard property.
