# Models of a network simulator's hardest components

This project models nine components of an INET-style network simulator (C++ on a discrete-event kernel)
and proves what they are for.  Simulated time is a `real`.  A call of `error()` or a failed `ASSERT` is an
error outcome that halts the run; `send` appends to a history; `scheduleAt` and `cancelEvent` set and clear
the expiry time of a timer.  The kernel may deliver any event that does not run time backwards or overtake a
pending timer; events at the same instant come in any order.

Each component appears twice: as functions on values, about which the theorems are stated over every run or
every input, and as a class whose methods update the fields of the C++ class in place, each proved to do what
the function says.  All classes but that of MAC addresses keep a `Valid()` that ties the fields to the whole
history: what a possible run of events, a message fed so far, or the fragments arrived have made of them.  So
the theorems hold of the objects: the event handlers of valid objects never run into the errors shown to be
impossible, and the lemmas called `Guarantees` read the results about runs off a valid object.

| component | source | files |
|---|---|---|
| CSMA/CD Ethernet MAC | `EtherMAC.cc`, `EtherMACBase.cc` | `EtherMac*.dfy` |
| turtle script interpreter | `TurtleMobility.cc` | `TurtleScript.dfy`, `TurtleLegs.dfy`, `TurtleModule.dfy` |
| SHA-1 (FIPS PUB 180-1) | `sha1.cc` | `Sha1Standard.dfy`, `Sha1Module.dfy` |
| learning switch | `MACRelayUnitBase.cc`, `MACRelayUnitNP.cc`, `MACRelayUnitPP.cc` | `RelayTable.dfy`, `RelayUnit.dfy` (table); `RelayDispatch.dfy`, `RelayShared.dfy`, `RelayNP.dfy`, `RelayPP.dfy` (schedulers with the table) |
| reassembly buffer (section 3.2 of RFC 791) | `ReassemblyBuffer.cc` | `Reassembly.dfy` |
| channel control | `ChannelControl.cc` | `Channel*.dfy` |
| queue with probes | `AbstractQueue.cc`, `QueueBase.cc` | `ProbeQueue*.dfy` |
| Ethernet bus | `EtherBus.cc` | `BusPropagation.dfy`, `EtherBusModule.dfy` |
| MAC address text | `MACAddress.cc` | `MacAddressText.dfy` |

## Where the code does less than it means to

Some things one would expect from the comments, the constants or the standards do not hold of the code as it
stands.  Each is proved with its exact condition; where it fails, a concrete run shows the exception to be real.

* After a frame is given up for excess collisions, a comment at `EtherMAC.cc:584` says that the end of the jam
  signal will start the next one.  It does not: if the receiver is already idle the rest of the queue waits
  for the next frame from anywhere (`StallExactly`, `NoLostWakeUp`, `WakeUpCanBeLost`).
* A PAUSE frame of zero units received in PAUSE state cancels the timer without leaving the state, so sending
  never resumes by itself (`StuckExactly`, `StuckInRun`, `PauseCanStick`).  These two are the only ways in which
  waiting frames come to wait for nothing (`WaitsForNothingExactly`).
* The test `++backoffs > MAX_ATTEMPTS` gives a frame up at its 17th collision, not the 16th
  (`GivenUpAtSeventeenth`).
* A PAUSE frame submitted from above during a transmission is inserted before the frame on the wire, and is the
  one removed at the end (`CompletedIsSent`, `PauseOvertakes`).
* A burst is meant to end after 8192 octets, but the limit is compared with the size of the last frame only.  So
  at gigabit rates frames follow one another without a gap as long as any are queued and no PAUSE is owed
  (`BurstGoesOn`).
* A fragment that straddles the end of the main region loses the part beyond it, so overlapping fragments may
  bring a whole datagram without ever completing it (`OverlapsAreLost`).  However its fragments overlap, a
  datagram is reported complete exactly if all its bytes have been received, no parked fragment straddles the end
  of the main region, and the byte there was not dropped without coming again (`CompletesExactly`).
* The last-fragment mark of a fragment that lies within the main region is dropped with it.  So fragments that
  disagree about where the datagram ends may never complete it although no byte is lost (`LastMarkIsLost`); which
  bytes are held is stated for these as well (`HeldExactly`, `NothingLostExactly`, `LongestExactly`).
* The propagation speed of a bus is not checked.  No event is scheduled in the past exactly if it is positive or
  all taps are at one place (`WorksExactly`).
* A `<repeat>` with an empty body leaves its counter on the stack, so a script ends properly exactly if it
  contains none that is reached (`EndsExactlyIfClean`).

## Model

| member | source | states |
|---|---|---|
| EtherMacSafety.InitSafe | src/linklayer/ethernet/EtherMAC.cc:50-131 | initialisation never fails and establishes the joint invariant of timers, states, queue and receiver |
| EtherMacSafety.ParametersNonNegative | src/linklayer/ethernet/EtherMACBase.cc:238-269 | the derived times are never negative, and only a nonstandard rate is refused |
| EtherMacSafety.AutoconfigSafe | src/linklayer/ethernet/EtherMAC.cc:133-200 | autoconfiguration keeps the invariant and raises no internal error |
| EtherMacSafety.UpperSafe | src/linklayer/ethernet/EtherMAC.cc:270-279 | a frame from above keeps the invariant and raises no internal error |
| EtherMacSafety.ReceptionCompleteSafe | src/linklayer/ethernet/EtherMACBase.cc:349-420 | completing a reception touches only the PAUSE timer, the transmit state (idle to paused) and the log |
| EtherMacSafety.CollideSafe | src/linklayer/ethernet/EtherMAC.cc:288-309 | a collision with our own transmission keeps the invariant |
| EtherMacSafety.StartReceptionSafe | src/linklayer/ethernet/EtherMAC.cc:310-322 | beginning a reception keeps the invariant; "frame being received while idle" is unreachable |
| EtherMacSafety.BackToBackSafe | src/linklayer/ethernet/EtherMAC.cc:323-341 | back-to-back receptions keep the invariant |
| EtherMacSafety.OverlapSafe | src/linklayer/ethernet/EtherMAC.cc:342-390 | overlapping receptions and jams keep the invariant |
| EtherMacSafety.StartTransmissionSafe | src/linklayer/ethernet/EtherMAC.cc:412-463 | putting a frame on the wire, into a collision or not, establishes the invariant |
| EtherMacSafety.EndTxSafe | src/linklayer/ethernet/EtherMAC.cc:465-503 | end of transmission keeps the invariant: neither a wrong state nor a missing frame is found |
| EtherMacSafety.EndRxSafe | src/linklayer/ethernet/EtherMAC.cc:505-529 | end of reception keeps the invariant |
| EtherMacSafety.EndJamSafe | src/linklayer/ethernet/EtherMAC.cc:550-598 | end of jam and backoff keep the invariant |
| EtherMacSafety.StepSafe | src/linklayer/ethernet/EtherMAC.cc:202-267 | every event the kernel can deliver keeps the invariant or is an error of the environment |
| EtherMacTheorems.RunSafe | src/linklayer/ethernet/EtherMAC.cc:202-267 | in no run, half or full duplex, does any of the code's own consistency checks fire |
| EtherMacHistory.NetworkTransition | src/linklayer/ethernet/EtherMAC.cc:282-391 | a message from the network interrupts our transmission exactly if that is half-duplex and on, and else leaves our own frames alone |
| EtherMacHistory.EndTxTransition | src/linklayer/ethernet/EtherMAC.cc:465-503 | the end of a transmission removes exactly the head, and may start the next frame of a burst |
| EtherMacHistory.StepTransition | src/linklayer/ethernet/EtherMAC.cc:202-267 | every step is one of nine kinds of change to queue, log, transmit state and collision counter |
| EtherMacTheorems.QueueAndFinished | src/linklayer/ethernet/EtherMACBase.cc:450-475 | but for accepting, a step keeps finished frames plus queue the same, resizing at most one frame by carrier extension |
| EtherMacTheorems.ExactlyOnce | src/linklayer/ethernet/EtherMACBase.cc:286-330 | in every run, frames accepted are those finished plus those queued; the data frames among them in order whatever PAUSE frames come from above, and all of them if none does |
| EtherMacTheorems.WireRun | src/linklayer/ethernet/EtherMAC.cc:412-463 | in every run, the frame on the wire sits in the queue behind the PAUSE frames submitted since |
| EtherMacTheorems.CompletedIsSent | src/linklayer/ethernet/EtherMACBase.cc:317-328 | the frame completed is the one last put on the wire exactly if no PAUSE frame was submitted meanwhile |
| EtherMacWitness.PauseOvertakes | src/linklayer/ethernet/EtherMACBase.cc:319-328 | a run of a connected 10 Mb/s full-duplex station in which a PAUSE frame is counted as sent while a data frame was on the wire |
| EtherMacTheorems.DrawsBounded | src/linklayer/ethernet/EtherMAC.cc:588-591 | the backoffs drawn for one frame add up to at most the worst case of their number |
| EtherMacTheorems.BackoffBounded | src/linklayer/ethernet/EtherMAC.cc:575-598 | between resets at most 16 backoffs, the k-th below 2^min(k,10) slots, in all at most 8174 slots drawn |
| EtherMacTheorems.BackoffTimed | src/linklayer/ethernet/EtherMAC.cc:531-598 | in every run the time spent in backoff for one frame, plus what is left of the backoff in progress, is exactly the slots drawn in slot times; so never more than 8174 slot times |
| EtherMacTheorems.GivenUpAtSeventeenth | src/linklayer/ethernet/EtherMAC.cc:575-586 | the head frame is abandoned exactly when the jam of its 17th collision in a row ends |
| EtherMacTheorems.StallExactly | src/linklayer/ethernet/EtherMAC.cc:505-586 | a step leaves an idle transmitter over waiting frames with no reception to wait for exactly if it gives a frame up with the receiver idle and more queued |
| EtherMacTheorems.NoLostWakeUp | src/linklayer/ethernet/EtherMAC.cc:505-586 | in every run an idle transmitter over waiting frames has the end of a reception to wait for, but right after that one branch; PAUSE state is the subject of StuckInRun |
| EtherMacWitness.CollideRepeatedly | src/linklayer/ethernet/EtherMAC.cc:412-463 | from an attempt to send on a connected 10 Mb/s half-duplex station, seventeen collisions in a row are reachable, each by two ordinary foreign frames and their jams |
| EtherMacWitness.WakeUpCanBeLost | src/linklayer/ethernet/EtherMAC.cc:575-586 | a run of that station that ends with a frame queued, everything idle and nothing scheduled |
| EtherMacTheorems.StuckExactly | src/linklayer/ethernet/EtherMACBase.cc:398-420 | PAUSE state is without its timer exactly after a zero-unit PAUSE completes in it, until a positive one does |
| EtherMacTheorems.StuckInRun | src/linklayer/ethernet/EtherMACBase.cc:398-420 | in every run PAUSE state is without its timer exactly if the last PAUSE frame completed since it was entered had no units |
| EtherMacTheorems.WaitsForNothingExactly | src/linklayer/ethernet/EtherMAC.cc:505-598 | in every run waiting frames have no timer to wait for exactly if the last step gave a frame up with the receiver idle, or the last PAUSE frame completed in PAUSE state had no units |
| EtherMacWitness.PauseCanStick | src/linklayer/ethernet/EtherMACBase.cc:406-412 | a run of a connected 10 Mb/s full-duplex station that ends in PAUSE state with a frame waiting and nothing scheduled |
| EtherMacPause.OwedExactly | src/linklayer/ethernet/EtherMACBase.cc:398-420 | in every run the PAUSE request stored is that of the last PAUSE frame completed while the transmitter was busy, until the end of a transmission takes it |
| EtherMacPause.PauseObeyed | src/linklayer/ethernet/EtherMACBase.cc:398-420 | in every run, until the time for which PAUSE frames completed at rest, in PAUSE state or during a transmission ask, the transmitter is paused with its timer set to that time, and no frame is put on the wire |
| EtherMacPause.SilentAfterPause | src/linklayer/ethernet/EtherMACBase.cc:398-420 | after a PAUSE of n units completed with the transmitter idle or paused, no frame is put on the wire for n times 512 bit times, unless another PAUSE is completed |
| EtherMacPause.SilentAfterTransmission | src/linklayer/ethernet/EtherMAC.cc:481-485 | after the end of a transmission that finds n units owed, no frame is put on the wire for n times 512 bit times, unless another PAUSE is completed |
| EtherMacTiming.RatesExactly | src/linklayer/ethernet/EtherMACBase.cc:238-269 | exactly four rates are accepted; at each, bit time, gap of 96 bits, jam of 32 bits, slot time, bursting and carrier extension are those of 802.3 |
| EtherMacTiming.BeginsExactly | src/linklayer/ethernet/EtherMAC.cc:50-131 | a connected station begins with autoconfiguration, telling others if it is half duplex or has a rate of its own |
| EtherMacTiming.SettledExactly | src/linklayer/ethernet/EtherMAC.cc:133-200 | in every run autoconfiguration settles the least of all rates wanted, 100 Mb/s if there is none, and duplex mode exactly if it is enabled and was never vetoed |
| EtherMacTiming.StepGap | src/linklayer/ethernet/EtherMACBase.cc:450-556 | whenever a gap or a jam begins its timer is set one gap or one jam duration ahead, and then left alone |
| EtherMacTiming.TransmissionTakes | src/linklayer/ethernet/EtherMAC.cc:412-463 | in every run a transmission ends 8 * (length + 8) bit times after its frame was put on the wire |
| EtherMacTiming.ReceptionTakes | src/linklayer/ethernet/EtherMAC.cc:310-341 | in every run a reception ends 8 * length bit times after the frame that arrived last began to arrive |
| EtherMacTiming.CollisionLasts | src/linklayer/ethernet/EtherMAC.cc:288-390 | how long the channel is heard busy after every kind of collision, and after the last jam |
| EtherMacTiming.UpperExactly | src/linklayer/ethernet/EtherMACBase.cc:286-330 | a frame from above is refused for exactly three reasons, and else queued, with our address as its source if it is data that has none |
| EtherMacTiming.NetworkFails | src/linklayer/ethernet/EtherMAC.cc:282-391 | a message from the network halts the run for exactly the listed reasons |
| EtherMacTiming.TimerFails | src/linklayer/ethernet/EtherMACBase.cc:349-396 | an expiring timer halts the run exactly for a frame too short to hold a preamble, or a rate that is none of the four |
| EtherMacTiming.FirstExtended | src/linklayer/ethernet/EtherMAC.cc:394-410 | the first frame of a burst is extended to 512 octets exactly where carrier extension applies |
| EtherMacTiming.BurstGoesOn | src/linklayer/ethernet/EtherMAC.cc:481-503 | in every run the next frame follows a transmission at once exactly if bursting applies, more frames are queued and no PAUSE is owed |
| EtherMacTheorems.StepAccounted | src/linklayer/ethernet/EtherMAC.cc:310-341 | handling an event moves time only between success, collision and the busy period in progress |
| EtherMacTheorems.TimeAccounted | src/linklayer/ethernet/EtherMAC.cc:624-635 | in every run the clock is success plus collision plus idle time plus the busy period in progress, so reported idle time is never negative |
| EtherMacReception.CollisionDestroys | src/linklayer/ethernet/EtherMAC.cc:342-390 | a reception becomes a collision exactly if another signal comes meanwhile, and stays one until it ends |
| EtherMacReception.ReceivingIsLastHeard | src/linklayer/ethernet/EtherMAC.cc:310-341 | in every run the frame under reception is the last one that arrived |
| EtherMacReception.StepHears | src/linklayer/ethernet/EtherMAC.cc:282-391 | a step passes up at most the frame under reception, and only if its reception ends unharmed |
| EtherMacReception.PassedUpExactly | src/linklayer/ethernet/EtherMACBase.cc:349-396 | in every run a step passes a frame up exactly if it ends an unharmed reception of undamaged data for us, and it is the last frame that arrived |
| EtherMacModule.EtherMAC.constructor | src/linklayer/ethernet/EtherMAC.cc:50-131 | initial fields, first timer and advertisement |
| EtherMacModule.EtherMAC.HandleAutoconfigMessage | src/linklayer/ethernet/EtherMAC.cc:133-200 | the fields after autoconfiguration messages are those of the specified step |
| EtherMacModule.EtherMAC.ProcessFrameFromUpperLayer | src/linklayer/ethernet/EtherMAC.cc:270-279 | queue, timers and errors after a frame from above |
| EtherMacModule.EtherMAC.EnqueueFrame | src/linklayer/ethernet/EtherMACBase.cc:286-330 | refusals, source address, and where in the queue the frame goes |
| EtherMacModule.EtherMAC.FrameReceptionComplete | src/linklayer/ethernet/EtherMACBase.cc:349-396 | delivery, drop or PAUSE command of a received frame |
| EtherMacModule.EtherMAC.ProcessPause | src/linklayer/ethernet/EtherMACBase.cc:398-420 | the PAUSE timer and the stored request |
| EtherMacModule.EtherMAC.ProcessMsgFromNetwork | src/linklayer/ethernet/EtherMAC.cc:282-391 | all four branches of an arrival from the network |
| EtherMacModule.EtherMAC.SendFrame | src/linklayer/ethernet/EtherMAC.cc:412-463 | putting the head frame on the wire |
| EtherMacModule.EtherMAC.SendJamSignal | src/linklayer/ethernet/EtherMAC.cc:558-567 | jam on the wire, its timer, and the state |
| EtherMacModule.EtherMAC.BeginSending | src/linklayer/ethernet/EtherMACBase.cc:533-556 | wait for the gap if frames are queued, else idle |
| EtherMacModule.EtherMAC.HandleEndIFGPeriod | src/linklayer/ethernet/EtherMAC.cc:394-410 | carrier extension, burst start and transmission |
| EtherMacModule.EtherMAC.HandleEndTxPeriod | src/linklayer/ethernet/EtherMAC.cc:465-503 | head removed, time accounted, counter reset, then PAUSE, burst or gap |
| EtherMacModule.EtherMAC.HandleEndRxPeriod | src/linklayer/ethernet/EtherMAC.cc:505-529 | completion or collision time, and the restart of sending |
| EtherMacModule.EtherMAC.HandleEndBackoffPeriod | src/linklayer/ethernet/EtherMAC.cc:531-548 | gap or idle after a backoff |
| EtherMacModule.EtherMAC.HandleEndJammingPeriod | src/linklayer/ethernet/EtherMAC.cc:550-598 | backoff or giving up after a jam |
| EtherMacModule.EtherMAC.HandleEndPausePeriod | src/linklayer/ethernet/EtherMACBase.cc:477-483 | sending resumes after a pause |
| EtherMacModule.EtherMAC.Handle | src/linklayer/ethernet/EtherMAC.cc:202-267 | handling one event is one step of the specification |
| EtherMacModule.EtherMAC.HandleMessage | src/linklayer/ethernet/EtherMAC.cc:202-267 | a valid object handles any event the kernel can deliver: its run goes on, or it halts for an error of the environment, never for one of its own checks |
| EtherMacModule.EtherMAC.Guarantees | src/linklayer/ethernet/EtherMAC.cc:202-267 | a valid object has conserved its frames and kept data frames in order, obeys PAUSE frames, has accounted for all time and bounded its backoffs, and leaves frames waiting for nothing in the two known cases only |
| TurtleScript.FinishStatement | src/mobility/TurtleMobility.cc:256-299 | past a finished statement, through any number of block ends, exactly what comes after it is left to run |
| TurtleScript.StepExact | src/mobility/TurtleMobility.cc:74-109 | a step runs the first of the remaining statements and keeps one positive counter per enclosing block |
| TurtleScript.CleanUnrolling | src/mobility/TurtleMobility.cc:100-108 | a finite script is clean exactly if its unrolling contains no faulty statement |
| TurtleScript.StepFails | src/mobility/TurtleMobility.cc:92-109 | executing a statement is an error exactly if its count or its time is negative |
| TurtleScript.UnrolledLength | src/mobility/TurtleMobility.cc:100-108 | a block of n repetitions unrolls to its own statement and n copies of its body |
| TurtleScript.FollowsUnrolling | src/mobility/TurtleMobility.cc:74-109 | until a faulty statement comes up, what has run is the beginning of the recursive unrolling and what is left is its rest |
| TurtleScript.RunsUnrolling | src/mobility/TurtleMobility.cc:256-299 | a clean script runs exactly its unrolling and ends with an empty stack |
| TurtleScript.FaultyNeverEnds | src/mobility/TurtleMobility.cc:258-261 | past a faulty statement the interpreter never reaches the end of the script |
| TurtleScript.EndsExactlyIfClean | src/mobility/TurtleMobility.cc:256-299 | a finite script runs to its end without error or failed assertion exactly if it is clean, having run its unrolling |
| TurtleScript.EndlessPrefix | src/mobility/TurtleMobility.cc:274-276 | endless blocks behave like blocks with a large enough count, for every number of statements |
| TurtleLegs.DoneWithin | src/mobility/TurtleMobility.cc:256-299 | past a finished statement, any script without empty blocks reaches a statement within the number still ahead before one takes time |
| TurtleLegs.StepWithin | src/mobility/TurtleMobility.cc:74-109 | from a statement that is no error a step succeeds and, if the statement takes no time, brings the next that does, or the end, nearer |
| TurtleLegs.CleanIsSturdy | src/mobility/TurtleMobility.cc:256-299 | clean scripts without endless blocks are among those whose resumption ends |
| TurtleLegs.FiniteContent | src/mobility/TurtleMobility.cc:74-109 | in a finite clean script what has run and what is left make up the unrolling, after any number of statements |
| TurtleLegs.EndlessContent | src/mobility/TurtleMobility.cc:74-109 | in any clean script what has run begins the unrolling that gives endless blocks a large enough count |
| TurtleModule.TurtleMobility.constructor | src/mobility/TurtleMobility.cc:30-36 | any script, endless or faulty ones included, stands at its beginning |
| TurtleModule.TurtleMobility.Rewind | src/mobility/TurtleMobility.cc:46-51 | the script stands at its beginning again, with no counter left |
| TurtleModule.TurtleMobility.Initialize | src/mobility/TurtleMobility.cc:36-51 | the script is run up to its first statement that takes time and rewound, or has an error |
| TurtleModule.TurtleMobility.GotoNextStatement | src/mobility/TurtleMobility.cc:256-299 | cursor and counters after the current statement, or a failed assertion |
| TurtleModule.TurtleMobility.ExecuteStatement | src/mobility/TurtleMobility.cc:92-109 | counter pushed or time advanced, or an error |
| TurtleModule.TurtleMobility.RunStatement | src/mobility/TurtleMobility.cc:85-89 | one more statement of the run, for its time; or the run halts, without a failed assertion if no block entered is empty and endless ones take time |
| TurtleModule.TurtleMobility.ResumeScript | src/mobility/TurtleMobility.cc:74-90 | ends, for endless blocks too if each takes time: having run statements without duration and at most one with it, after which time has passed or the script is over |
| TurtleModule.TurtleMobility.Guarantees | src/mobility/TurtleMobility.cc:74-109 | over any number of calls a valid object has run the beginning of the unrolling of its clean script |
| Sha1Standard.ZeroCountFits | src/sha1/sha1.cc:534-557 | the padding is the least that gives whole blocks |
| Sha1Standard.PadIsBlocks | src/sha1/sha1.cc:527-572 | the padded message is the message followed by padding, a whole number of blocks |
| Sha1Standard.ExampleWords | src/sha1/sha1.cc:433-444 | first and first computed word of the example of appendix A of FIPS PUB 180-1 |
| Sha1Standard.ExampleRound0 | src/sha1/sha1.cc:446-457 | the first round of that example |
| Sha1Standard.ExampleRound20 | src/sha1/sha1.cc:459-469 | the first round of its second phase |
| Sha1Standard.ExampleRound40 | src/sha1/sha1.cc:471-483 | the first round of its third phase |
| Sha1Standard.ExampleRound60 | src/sha1/sha1.cc:485-495 | the first round of its last phase |
| Sha1Standard.ExampleDigest | src/sha1/sha1.cc:497-501 | its digest, from the buffers after the last round |
| Sha1Module.LengthField | src/sha1/sha1.cc:562-569 | the two counters, shifted and masked, are the 64-bit big-endian bit count |
| Sha1Module.HashNext | src/sha1/sha1.cc:211-214 | compressing one more block extends the hash of the blocks before |
| Sha1Module.CountOctet | src/sha1/sha1.cc:199-209 | the counters hold eight times the octets fed, and wrap to zero exactly at 2^61 octets |
| Sha1Module.PaddedIsDigest | src/sha1/sha1.cc:527-572 | padding and compressing the last block, in either branch, gives the digest of the whole message |
| Sha1Module.OneBlockPadding | src/sha1/sha1.cc:549-557 | padding that fits the last block |
| Sha1Module.TwoBlockPadding | src/sha1/sha1.cc:534-548 | padding that needs one more block |
| Sha1Module.SHA1.constructor | src/sha1/sha1.cc:64-67 | a fresh hash of the empty message |
| Sha1Module.SHA1.Reset | src/sha1/sha1.cc:105-119 | the hash starts over |
| Sha1Module.SHA1.CircularShift | src/sha1/sha1.cc:593-596 | the masked shifts are the rotation of section 3 of FIPS PUB 180-1 |
| Sha1Module.SHA1.LoadWords | src/sha1/sha1.cc:433-439 | the first 16 words are those of the schedule |
| Sha1Module.SHA1.Schedule | src/sha1/sha1.cc:433-444 | all 80 words are those of section 7 of FIPS PUB 180-1 |
| Sha1Module.SHA1.RunRounds | src/sha1/sha1.cc:446-495 | the four loops, each a method of its own, are the 80 rounds of section 7 |
| Sha1Module.SHA1.ProcessMessageBlock | src/sha1/sha1.cc:417-504 | H becomes the compression of H with the block |
| Sha1Module.SHA1.FinishBlock | src/sha1/sha1.cc:552-571 | zeros, length and the last compression |
| Sha1Module.SHA1.PadMessage | src/sha1/sha1.cc:527-572 | H becomes the digest of all that was fed |
| Sha1Module.SHA1.Absorb | src/sha1/sha1.cc:194-216 | one octet more, with the streaming invariant kept or the message marked too long |
| Sha1Module.SHA1.Input | src/sha1/sha1.cc:180-218 | pieces of any size concatenate; refused exactly after a digest, after corruption, or at 2^61 octets |
| Sha1Module.SHA1.Result | src/sha1/sha1.cc:139-161 | the FIPS PUB 180-1 digest of the message fed, in however many pieces, whenever it succeeds |
| RelayTable.Oldest | src/linklayer/etherswitch/MACRelayUnitBase.cc:157-175 | the entry evicted is the oldest, of the least address among equals |
| RelayTable.SeenSinceGrows | src/linklayer/etherswitch/MACRelayUnitBase.cc:177-210 | further sightings only add to the addresses seen since |
| RelayTable.EvictedSeenSince | src/linklayer/etherswitch/MACRelayUnitBase.cc:157-175 | when the oldest entry is evicted, as many others as the table holds have been seen since |
| RelayTable.LearnAgrees | src/linklayer/etherswitch/MACRelayUnitBase.cc:177-210 | learning keeps the table in agreement with all sightings |
| RelayTable.TableAgrees | src/linklayer/etherswitch/MACRelayUnitBase.cc:142-228 | after any history: entries are latest sightings, a missing unaged address has had table-size others seen since, and the size is bounded |
| RelayTable.LookupAnswers | src/linklayer/etherswitch/MACRelayUnitBase.cc:212-228 | a lookup answers the port of the latest unaged sighting, or -1 for one of the permitted reasons |
| RelayTable.UnlimitedIsExact | src/linklayer/etherswitch/MACRelayUnitBase.cc:212-228 | with table size 0 lazy deletion is invisible: lookup equals the history specification |
| RelayTable.TableKeepsLater | src/linklayer/etherswitch/MACRelayUnitBase.cc:142-228 | after any history, whatever was seen after an unaged entry of the table is in the table as well |
| RelayTable.RememberedExactly | src/linklayer/etherswitch/MACRelayUnitBase.cc:142-228 | an address answered is unaged with fewer others seen after it than the table holds; and exactly such addresses are answered, if no two were last seen at the same time |
| RelayUnit.OtherPortsOnce | src/linklayer/etherswitch/MACRelayUnitBase.cc:123-129 | a broadcast goes to every port but the input port, once each |
| RelayUnit.DispatchedByHistory | src/linklayer/etherswitch/MACRelayUnitBase.cc:88-121 | no frame goes back; it goes to its destination's latest known port, and everywhere else exactly if that is unknown |
| RelayUnit.MACRelayUnitBase.constructor | src/linklayer/etherswitch/MACRelayUnitBase.cc:64-86 | parameters with their defaults, and an empty table |
| RelayUnit.MACRelayUnitBase.RemoveAgedEntriesFromTable | src/linklayer/etherswitch/MACRelayUnitBase.cc:142-155 | exactly the aged entries go |
| RelayUnit.MACRelayUnitBase.RemoveOldestTableEntry | src/linklayer/etherswitch/MACRelayUnitBase.cc:157-175 | exactly the oldest entry goes |
| RelayUnit.MACRelayUnitBase.UpdateTableWithAddress | src/linklayer/etherswitch/MACRelayUnitBase.cc:177-210 | the table stays the one its history produces |
| RelayUnit.MACRelayUnitBase.GetPortForAddress | src/linklayer/etherswitch/MACRelayUnitBase.cc:212-228 | the answer of the specified lookup, with an aged entry dropped on the way |
| RelayUnit.MACRelayUnitBase.BroadcastFrame | src/linklayer/etherswitch/MACRelayUnitBase.cc:123-129 | the ports a broadcast goes to |
| RelayUnit.MACRelayUnitBase.HandleAndDispatchFrame | src/linklayer/etherswitch/MACRelayUnitBase.cc:88-121 | learns the source and sends by the table that includes it |
| RelayDispatch.DispatchNext | src/linklayer/etherswitch/MACRelayUnitBase.cc:88-121 | sending on one more processed frame keeps the table in step with all frames processed before, each sent by what these had taught it |
| RelayDispatch.SentByHistory | src/linklayer/etherswitch/MACRelayUnitBase.cc:88-129 | whatever frames a scheduler has processed, each went to its destination's latest known port, to all others if that was unknown, and never back; and when it is known follows from the sightings alone if no two were at the same time |
| RelayNP.RunInv | src/linklayer/etherswitch/MACRelayUnitNP.cc:119-199 | the joint invariant of queue, processors, budget, counters and start times holds in every run |
| RelayNP.NeverFails | src/linklayer/etherswitch/MACRelayUnitNP.cc:151-172 | no assertion fails in any run |
| RelayNP.WaitOnlyWhenBusy | src/linklayer/etherswitch/MACRelayUnitNP.cc:137-155 | frames wait only while all processors are busy, and are the last ones taken in |
| RelayNP.BufferConserved | src/linklayer/etherswitch/MACRelayUnitNP.cc:119-199 | the byte budget is what is held and below the limit; arrivals are processed, dropped or held |
| RelayNP.PausesExactly | src/linklayer/etherswitch/MACRelayUnitNP.cc:119-135 | in every run a frame is taken in exactly if it leaves room; PAUSE goes out exactly when one is and with it at least the watermark is held, more than the interval after the last time |
| RelayNP.StartsInOrder | src/linklayer/etherswitch/MACRelayUnitNP.cc:119-199 | the i-th frame taken in is the i-th to start, on arrival or when the frame N places before is finished; start times never decrease |
| RelayNP.FinishesInOrder | src/linklayer/etherswitch/MACRelayUnitNP.cc:168-199 | frames finished and frames on processors, with the times at which they are due, are exactly the frames started, each one processing time after its own start; completion times never decrease |
| RelayNP.ArrivalToPorts | src/linklayer/etherswitch/MACRelayUnitNP.cc:119-199 | once a started frame is due it has been finished at that very time and sent to the right ports by the frames finished before it |
| RelayNP.MACRelayUnitNP.constructor | src/linklayer/etherswitch/MACRelayUnitNP.cc:57-103 | all processors idle, nothing held |
| RelayNP.MACRelayUnitNP.SendPauseFrames | src/linklayer/etherswitch/MACRelayUnitNP.cc:128-135 | PAUSE goes to all ports or none, by watermark and interval |
| RelayNP.MACRelayUnitNP.FindIdleCpu | src/linklayer/etherswitch/MACRelayUnitNP.cc:137-142 | the first idle processor |
| RelayNP.MACRelayUnitNP.HandleIncomingFrame | src/linklayer/etherswitch/MACRelayUnitNP.cc:119-166 | the whole new state after an arrival, the times at which PAUSE frames went out included, or a failed assertion |
| RelayNP.MACRelayUnitNP.ProcessFinished | src/linklayer/etherswitch/MACRelayUnitNP.cc:168-199 | the whole new state after a frame is processed and dispatched, the address table and the ports sent to included, or a failed assertion |
| RelayNP.MACRelayUnitNP.HandleMessage | src/linklayer/etherswitch/MACRelayUnitNP.cc:105-117 | a valid object handles any event the kernel can deliver without a failed assertion, and its run goes on |
| RelayPP.RunInv | src/linklayer/etherswitch/MACRelayUnitPP.cc:106-182 | the joint invariant of ports, pending messages, budget and counters holds in every run |
| RelayPP.NeverFails | src/linklayer/etherswitch/MACRelayUnitPP.cc:152-158 | no frame is ever taken from an empty queue |
| RelayPP.BusyMeansPending | src/linklayer/etherswitch/MACRelayUnitPP.cc:127-138 | a port is busy exactly while its queue is non-empty and exactly one end message for it is pending, at the right time |
| RelayPP.BufferConserved | src/linklayer/etherswitch/MACRelayUnitPP.cc:106-182 | the byte budget over all ports is what is held; arrivals are processed, dropped or held |
| RelayPP.PausesExactly | src/linklayer/etherswitch/MACRelayUnitPP.cc:106-127 | in every run a frame is taken in, on its port, exactly if it leaves room; PAUSE goes out exactly when one is and with it at least the watermark is held on all ports, more than the interval after the last time |
| RelayPP.PortsServeInOrder | src/linklayer/etherswitch/MACRelayUnitPP.cc:106-182 | each port serves in order, each frame one processing time after its arrival or its predecessor |
| RelayPP.ArrivalToPorts | src/linklayer/etherswitch/MACRelayUnitPP.cc:106-182 | the k-th frame finished at a port is the k-th accepted there, and was sent to the right ports at that time by the frames finished before it |
| RelayPP.MACRelayUnitPP.constructor | src/linklayer/etherswitch/MACRelayUnitPP.cc:45-90 | all ports idle, nothing held |
| RelayPP.MACRelayUnitPP.HandleIncomingFrame | src/linklayer/etherswitch/MACRelayUnitPP.cc:106-150 | the whole new state after an arrival, the times at which PAUSE frames went out included |
| RelayPP.MACRelayUnitPP.ProcessFinished | src/linklayer/etherswitch/MACRelayUnitPP.cc:152-182 | the whole new state after a frame is processed and dispatched, the address table and the ports sent to included |
| RelayPP.MACRelayUnitPP.HandleMessage | src/linklayer/etherswitch/MACRelayUnitPP.cc:92-104 | a valid object handles any event the kernel can deliver, finds no queue empty, and its run goes on |
| Reassembly.NeverInvents | src/base/ReassemblyBuffer.cc:37-126 | for any fragments with begin not after end, main covers only received bytes and parked fragments were received |
| Reassembly.MergeHolds | src/base/ReassemblyBuffer.cc:45-126 | for any state reached, an arriving fragment adds exactly its own bytes, but for those beyond main if it straddles the end of main |
| Reassembly.HeldExactly | src/base/ReassemblyBuffer.cc:37-126 | for any fragments in any order, a byte is in main or parked exactly if some fragment brought it that did not straddle the end of main on arrival, or brought it inside main |
| Reassembly.NothingLostExactly | src/base/ReassemblyBuffer.cc:74-78 | all received bytes are held exactly if each byte cut off a straddling fragment also came in a fragment that was not cut; so whenever no arriving fragment straddles the end of main |
| Reassembly.LongestExactly | src/base/ReassemblyBuffer.cc:37-126 | main is the longest received prefix exactly if no parked fragment straddles its end and the byte at its end was not cut off without coming again |
| Reassembly.CompletesExactly | src/base/ReassemblyBuffer.cc:37-126 | however the fragments of one datagram overlap: complete exactly when main reaches its length, and that is exactly when all bytes have been received, no parked fragment straddles the end of main, and the byte there was not dropped without coming again |
| Reassembly.OverlapsAreLost | src/base/ReassemblyBuffer.cc:74-78 | two overlapping fragments of one datagram that bring all its bytes and never complete it: a byte is dropped, so that condition is false of them |
| Reassembly.LastMarkIsLost | src/base/ReassemblyBuffer.cc:74-78 | fragments that do not agree on the end of the datagram may lose no byte and still never complete |
| Reassembly.SweepGathered | src/base/ReassemblyBuffer.cc:88-123 | a pass keeps main a run of received blocks and parks the rest |
| Reassembly.SweepFixpoint | src/base/ReassemblyBuffer.cc:86-125 | a pass that erases nothing changes nothing and leaves nothing to join |
| Reassembly.BufferGathered | src/base/ReassemblyBuffer.cc:45-126 | blocks of one datagram, in any order with repetition, leave main settled on a run of blocks |
| Reassembly.CompleteExactly | src/base/ReassemblyBuffer.cc:37-43 | main is the longest received run of blocks from the start; complete exactly when every block has arrived, and then of the datagram's length |
| Reassembly.ReassemblyBuffer.constructor | src/base/ReassemblyBuffer.cc:25-30 | an empty buffer |
| Reassembly.ReassemblyBuffer.AddFragment | src/base/ReassemblyBuffer.cc:37-43 | the buffer stays what the arrived fragments make of it; for fragments of one datagram true is returned exactly under the condition above |
| Reassembly.ReassemblyBuffer.MergeFragment | src/base/ReassemblyBuffer.cc:45-79 | the four ways a fragment can lie to main |
| Reassembly.ReassemblyBuffer.MergeFragments | src/base/ReassemblyBuffer.cc:81-126 | passes until one erases nothing |
| Reassembly.ReassemblyBuffer.SweepOnce | src/base/ReassemblyBuffer.cc:88-123 | one pass with erasure in place |
| Reassembly.ReassemblyBuffer.GetTotalLength | src/base/ReassemblyBuffer.h:77-81 | once complete, the length of the datagram on which the fragments agree; all bytes below it have arrived |
| ChannelNeighbors.ConnectOneMeaning | src/world/ChannelControl.cc:188-211 | updating one pair makes it exact, keeps symmetry and caches, and leaves all other pairs alone |
| ChannelNeighbors.MoveMeaning | src/world/ChannelControl.cc:180-226 | a move makes all pairs of the moved host exact and leaves the others alone |
| ChannelNeighbors.AlwaysAgrees | src/world/ChannelControl.cc:139-226 | in every history adjacency is symmetric, equals "squared distance below the limit" for refreshed pairs, and valid caches list exactly the neighbours |
| ChannelNeighbors.AlwaysTold | src/world/ChannelControl.cc:139-234 | in every history every host has the identity it registered with, the position it reported last and the channel it was tuned to last |
| ChannelNeighbors.DeliversInRange | src/world/ChannelControl.cc:290-315 | a frame reaches exactly the other hosts that by their own reports are in range and on its channel, each once |
| ChannelTransmissions.AliveTwice | src/world/ChannelControl.cc:271-288 | what has been thrown away would not be alive later |
| ChannelTransmissions.QueriesAreExact | src/world/ChannelControl.cc:236-288 | with more than one channel a query lists, in order, exactly the frames added that ended at most a second ago or not yet |
| ChannelTransmissions.NotPurgedEarly | src/world/ChannelControl.cc:271-288 | no frame is purged before a second after its end |
| ChannelTransmissions.SingleChannelUntracked | src/world/ChannelControl.cc:247-253 | with one channel nothing is listed |
| ChannelControl.ChannelControl.constructor | src/world/ChannelControl.cc:69-90 | no hosts, one empty list per channel |
| ChannelControl.ChannelControl.LookupHost | src/world/ChannelControl.cc:158-165 | the first host of that identity, or none |
| ChannelControl.ChannelControl.RegisterHost | src/world/ChannelControl.cc:139-156 | one more host exactly if it is new |
| ChannelControl.ChannelControl.UpdateConnections | src/world/ChannelControl.cc:180-213 | every pair of the host is brought up to date |
| ChannelControl.ChannelControl.UpdateHostPosition | src/world/ChannelControl.cc:221-226 | position and connections after a move, in step with the history |
| ChannelControl.ChannelControl.UpdateHostChannel | src/world/ChannelControl.cc:228-234 | the host is on the channel from then on, or the channel is refused if out of range |
| ChannelControl.ChannelControl.GetNeighbors | src/world/ChannelControl.cc:167-178 | the list returned lists exactly the neighbour set, each once |
| ChannelControl.ChannelControl.PurgeOngoingTransmissions | src/world/ChannelControl.cc:271-288 | exactly the expired frames go, in every list |
| ChannelControl.ChannelControl.AddOngoingTransmission | src/world/ChannelControl.cc:245-269 | the lists stay what the history of additions and queries makes of them |
| ChannelControl.ChannelControl.GetOngoingTransmissions | src/world/ChannelControl.cc:236-243 | the unexpired frames of all those ever added on the channel |
| ChannelControl.ChannelControl.SendToNeighbors | src/world/ChannelControl.cc:290-312 | the receivers are exactly the hosts in range on the channel, each once, each after the delay its distance takes at the speed of light |
| ChannelControl.ChannelControl.SendToChannel | src/world/ChannelControl.cc:290-315 | the same, and the frame is recorded as ongoing |
| ProbeQueue.DataLeaves | src/base/AbstractQueue.cc:119-133 | the end of a service sends the oldest data packet on time and starts the next |
| ProbeQueue.ArrivalEffect | src/base/AbstractQueue.cc:59-83 | what an arrival does, the recursion of zero service time included |
| ProbeQueue.StepInv | src/base/AbstractQueue.cc:47-157 | every event keeps both queues, both timers and all departure times in agreement with the arrivals |
| ProbeQueue.FailsOnlyOnCast | src/base/QueueBase.cc:34-37 | the only failure in any run is the cast of an encapsulating packet that is no datagram |
| ProbeQueue.InOrderAndConserved | src/base/AbstractQueue.cc:47-157 | in every run each class leaves in order of arrival, nothing is lost, and the server idles only over an empty data queue |
| ProbeQueue.DataDepartures | src/base/AbstractQueue.cc:86-133 | the k-th data packet leaves one service time after it arrives or its predecessor leaves |
| ProbeQueue.ProbesExactly | src/base/QueueBase.cc:30-57 | the packets treated as probes are exactly those that carry a message of protocol 1, 2 or 46 |
| ProbeQueue.WaitingProbeHasTimer | src/base/AbstractQueue.cc:67-72 | a waiting probe has its timer running, to expire within a tenth of the service time |
| ProbeQueue.StepProbes | src/base/AbstractQueue.cc:135-151 | only the probe timer releases probes, one at a time, and starts again at once |
| ProbeQueue.ProbeLeavesOnTime | src/base/AbstractQueue.cc:135-151 | whatever else happens, the probe at position k leaves exactly k intervals after the timer expires, hence within (k + 1) tenths of the service time |
| ProbeQueueModule.QueueBase.Arrival | src/base/QueueBase.cc:30-57 | a packet joins the queue of its class |
| ProbeQueueModule.QueueBase.ArrivalWhenIdle | src/base/QueueBase.cc:69-89 | a probe is kept, any other packet handed back |
| ProbeQueueModule.QueueBase.DoStartService | src/base/AbstractQueue.cc:86-117 | the timer is set, or the service ends on the spot |
| ProbeQueueModule.QueueBase.DoEndService | src/base/AbstractQueue.cc:119-133 | the packet is sent and the next one enters service |
| ProbeQueueModule.QueueBase.DoProbeEndService | src/base/AbstractQueue.cc:135-151 | the head probe is sent and the timer set again |
| ProbeQueueModule.QueueBase.Handle | src/base/AbstractQueue.cc:47-84 | handling one event is one step of the specification |
| ProbeQueueModule.QueueBase.HandleMessage | src/base/AbstractQueue.cc:47-84 | a valid object handles any event the kernel can deliver and its run goes on, unless an encapsulating packet is no datagram |
| ProbeQueueModule.QueueBase.Guarantees | src/base/AbstractQueue.cc:47-157 | a valid object has lost no packet, sends each class in order, idles only over an empty data queue, and has its timer running while a probe waits |
| BusPropagation.FilledPositions | src/linklayer/ethernet/EtherBus.cc:65-70 | missing positions are equally spaced beyond the last one |
| BusPropagation.AscendingExactly | src/linklayer/ethernet/EtherBus.cc:65-75 | the positions of all taps ascend exactly if the given ones do, as far as there are taps for them |
| BusPropagation.PlacedAtGiven | src/linklayer/ethernet/EtherBus.cc:65-70 | taps stand at the given positions, and beyond these at the last distance, or 5 m apart |
| BusPropagation.PlacedIsSpaced | src/linklayer/ethernet/EtherBus.cc:71-93 | taps at ascending positions with their delays agree with their neighbours about the delay between them, and know none beyond the ends |
| BusPropagation.UpDelay | src/linklayer/ethernet/EtherBus.cc:168-172 | the legs upstream telescope to the distance over the speed |
| BusPropagation.UpwardOnTime | src/linklayer/ethernet/EtherBus.cc:148-174 | an event upstream that is on time makes exactly the expected deliveries below |
| BusPropagation.DownwardOnTime | src/linklayer/ethernet/EtherBus.cc:148-174 | likewise downstream |
| BusPropagation.EnterFuture | src/linklayer/ethernet/EtherBus.cc:119-147 | the events a frame starts will make exactly the deliveries expected of it |
| BusPropagation.RunInv | src/linklayer/ethernet/EtherBus.cc:117-175 | in every run, deliveries made plus deliveries to come are those expected of the frames that entered |
| BusPropagation.WorksExactly | src/linklayer/ethernet/EtherBus.cc:77-174 | no event is ever scheduled in the past exactly if the speed is positive or all taps are at one place |
| BusPropagation.DeliversExactly | src/linklayer/ethernet/EtherBus.cc:117-175 | in every run, however frames interleave, everything delivered is expected and everything due has been delivered |
| BusPropagation.ExpectedCount | src/linklayer/ethernet/EtherBus.cc:125-141 | expected of a frame is one delivery to each other tap and none to its own |
| BusPropagation.DeliveredOnce | src/linklayer/ethernet/EtherBus.cc:117-175 | a frame entering at p at t is delivered to every other q exactly once, at t plus distance over speed, and never to p |
| EtherBusModule.EtherBus.PlaceTaps | src/linklayer/ethernet/EtherBus.cc:62-70 | positions given or filled up |
| EtherBusModule.EtherBus.InOrder | src/linklayer/ethernet/EtherBus.cc:71-75 | accepts exactly ascending positions |
| EtherBusModule.EtherBus.ComputeDelays | src/linklayer/ethernet/EtherBus.cc:77-93 | every tap gets the delays to its neighbours, a single tap one computed from the number read past the array |
| EtherBusModule.EtherBus.Initialize | src/linklayer/ethernet/EtherBus.cc:39-93 | accepts exactly given positions in order; the taps then stand at the given positions with their delays; valid exactly if no event will be scheduled in the past |
| EtherBusModule.EtherBus.HandleFrame | src/linklayer/ethernet/EtherBus.cc:119-147 | the events a frame from a station starts |
| EtherBusModule.EtherBus.HandleEvent | src/linklayer/ethernet/EtherBus.cc:148-174 | delivery at a tap and the next leg |
| EtherBusModule.EtherBus.HandleMessage | src/linklayer/ethernet/EtherBus.cc:117-175 | a valid bus handles any event the kernel can deliver and its run goes on |
| EtherBusModule.EtherBus.Guarantees | src/linklayer/ethernet/EtherBus.cc:117-175 | what a valid bus has delivered is expected of the frames that entered, and everything due has been delivered |
| MacAddressText.ParsePrinted | src/linklayer/contract/MACAddress.cc:97-152 | parsing the printed form of any address gives it back |
| MacAddressText.ParseExactly | src/linklayer/contract/MACAddress.cc:97-116 | a string is accepted exactly if it spells twelve digits in either case with separators anywhere, and is then the address they make in pairs |
| MacAddressText.SpellingExactly | src/linklayer/contract/MACAddress.cc:97-116 | hex digits and separators, and nothing else, spell a row of digits; the characters written out |
| MacAddressText.ShowingExactly | src/linklayer/contract/MACAddress.cc:31-59 | the digits read from any string are those its characters show, others being skipped |
| MacAddressText.TextExactly | src/linklayer/contract/MACAddress.cc:144-152 | the printed form, character by character |
| MacAddressText.ParseIsDigits | src/linklayer/contract/MACAddress.cc:97-116 | two accepted strings mean the same address exactly if their hex digits agree in order |
| MacAddressText.PrintParsed | src/linklayer/contract/MACAddress.cc:97-152 | printing a parsed string gives its digits in upper case, in pairs joined by hyphens |
| MacAddressText.CompareIsNumeric | src/linklayer/contract/MACAddress.cc:154-162 | comparison is the order of addresses as 48-bit numbers, and zero exactly for equals |
| MacAddressText.HexToBin | src/linklayer/contract/MACAddress.cc:31-59 | the buffer holds pairs of the digits that the string shows, zero where they run out, and the count is right |
| MacAddressText.MACAddress.constructor | src/linklayer/contract/MACAddress.cc:64-67 | the unspecified address |
| MacAddressText.MACAddress.TryParse | src/linklayer/contract/MACAddress.cc:97-116 | accepted exactly if twelve digits are spelled, whatever the case and separators, and then their pairs are the octets; a refused string changes nothing |
| MacAddressText.MACAddress.Str | src/linklayer/contract/MACAddress.cc:144-152 | 17 characters: every octet in upper-case hex, separated by hyphens; written within the buffer |
| MacAddressText.MACAddress.CompareTo | src/linklayer/contract/MACAddress.cc:159-162 | the sign of the comparison is numeric order |

## Left out

* Rounding: the kernel's fixed-point times and C++ doubles are exact reals here.
* EtherMAC2: its end-of-transmission handler returns before removing the frame when a pause is pending, so the
  order theorems do not carry over.
* MAC: pulling frames from an external queue module, the notification board, the interface table, the refusal of
  channels with a data rate of their own, the `disabled` flag, which the code never sets, and frame and collision
  statistics other than channel time.  Related C++ fields are grouped in records (`Mode`, `Burst`, `Usage`).
* MAC: the cable-length check is modelled as written, comparing a time with a byte count.
- EtherMacTheorems.ExactlyOnce: frames are compared up to the length that carrier extension may set, because the
  source enlarges the queued frame itself.
- EtherMacTheorems.CompletedIsSent: assumes distinct message objects, which the kernel guarantees.
* Turtle scripts: positions, angles, borders and attribute expressions; a repeat count is a fixed number, not an
  expression evaluated anew each time.
- TurtleModule.TurtleMobility.ResumeScript: requires that no block entered is empty and that endless blocks
  contain a statement that takes time, because its loop need not end on others; those are covered statement by
  statement, by RunStatement and the lemmas on `Run`.
- TurtleModule.TurtleMobility.Initialize: requires the same, since it resumes the script.
* SHA-1: the stream operators, which pass strings and single characters to `Input`.
* Switch: reading the address table from a file, and the formats of port parameters and PAUSE frames.
* Reassembly: 16-bit offsets are modelled as such; the heap allocation of the fragment vector is not.
* Channel control: module pointers (an index stands for a host), the library's square root, which is a
  parameter, and the formula for the interference distance; neighbours are listed in an arbitrary order, since
  the source orders them by address in memory.
* Queue: what subclasses do with a finished packet other than sending it; a negative delay.
* Bus: the parsing of the position list and the autoconfiguration messages sent at start; the cable has no
  end-of-frame events, as in the source.
- EtherBusModule.EtherBus.Initialize: does not model a propagation speed of zero, by which the source divides.
* MAC addresses: characters are ASCII and strings hold no null; automatic address generation and interface
  identifiers.
* Hub, LLC, encapsulation, applications, transport protocols, packet capture, display strings and result
  recording: accessors, callbacks, I/O or user interface.
