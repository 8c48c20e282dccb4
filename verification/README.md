# A verified model of the ASDU delivery chain

The repository moves telecontrol data to a control centre. Parsers write records; `asduconv`
packs them into ASDUs as hexadecimal text; `quemngr` stores messages in directories, hands them to
a sender process and retries the ones that fail; `ieclink` reads the text from its standard input
and carries the ASDUs over an IEC 60870-5-104 connection. This project models the parts where
correctness is hardest to see and proves what they promise for every input, every run or every
reachable state.

| file | models |
|---|---|
| `Basics.dfy`, `Octets.dfy` | optional values, sequence facts, octets and ASDUs |
| `LinkLayer.dfy` | one endpoint of the link layer: every callback as a function of the session |
| `IecSock.dfy` | the session record with its queues, timers and counters, updated in place |
| `LinkWindow.dfy` | sequence numbers modulo 32767 against unbounded counters |
| `Link.dfy`, `LinkRuns.dfy` | a master and a slave joined by two channels; all runs, faulty or reliable |
| `LinkTimers.dfy`, `WriteQueue.dfy` | what every callback does to the timers and queues, and what that means in every run |
| `Supervision.dfy`, `LinkCases.dfy` | when timer t1 really watches over unacknowledged frames; three runs that go wrong |
| `Framing.dfy`, `FrameBuffer.dfy` | the octets of a frame, and the reader that reassembles frames |
| `StdinLines.dfy` | the line parser on standard input, however reads cut the text |
| `Backlog.dfy`, `Handshake.dfy`, `IecLink.dfy` | the bridge: backlog, wakeup hook, the `>` / `<` handshake |
| `TimerHeap.dfy` | the binary heap of timers |
| `MsgList.dfy` | message lists |
| `Scheduler.dfy`, `SchedulerRuns.dfy`, `Flushing.dfy`, `Attempts.dfy`, `FlushAttempts.dfy` | the store-and-forward scheduler: what its steps and flush_queue keep |
| `PollWait.dfy`, `ManagerRuns.dfy` | the timeout given to `poll`, and all runs of the main loop |
| `QueueManager.dfy` | the manager's globals, updated in place |
| `HexText.dfy` | hexadecimal text of octets and integers |
| `AsduCodec.dfy` | information objects as text and as octets, and a decoder taken from the standard |
| `AsduPacker.dfy`, `PackingMeaning.dfy`, `PackingRuns.dfy`, `TimedGroups.dfy` | the grouping of records into ASDUs, what the ASDUs mean, and which inputs come back |
| `AsduConv.dfy` | the script's accumulators, updated record by record |
| `Pipeline.dfy`, `Survival.dfy` | `asduconv` feeding `ieclink`: what survives the whole way |
| `GsmSeptets.dfy` | the unpacker of 7-bit SMS text |

Where the code works by updating things in place there is a class (`IecSock.Session`,
`FrameBuffer.Assembler`, `IecLink.Bridge`, `TimerHeap.Heap`, `QueueManager.Manager`,
`AsduConv.Packer`) whose methods are proved to do what a function on values says; the theorems
about whole runs are about those functions.

`dafny verify dfyconfig.toml` checks everything.

## What is assumed

- Link layer: both ends run this code, so both count modulo 32767 (the standard's 15-bit numbers
  count modulo 32768). N(R) is below 32767; 32767 itself passes as an alias of 0
  (`LinkWindow.CheckNrAlias`). k and w are fixed for a connection, 1 <= k <= 32766, 1 <= w. Nobody
  sends STOPACT, since no code does. A closed session does nothing more. A master's user queues
  ASDUs only after STARTCON. No entry point of the repository creates a slave (where a connection is
  accepted the type is set to master, and the line for the slave is commented out,
  `ieclink/iecsock.c:548-549`): the two-party model joins the master to the slave that the callbacks
  implement. A run is reliable ("calm") when no frame is lost or repeated, nobody
  closes, and t3 does not expire while a test answer is outstanding.
- Bridge: one connection that starts with an empty backlog; the peer confirms the start once and
  sends nothing numbered before that. Writing through a tail pointer into a freed node is modelled
  as losing that ASDU and nothing else.
- Queue manager: each inode given to the sender gets one code 1 and then one final code other than
  1 (the sender's exit status 3, which prints nothing, is outside this). A new file has an inode
  number that no other file of the manager has and no timer names; numbers of delivered messages
  come again. The number fits an `int` in the heap. At start-up the directory of ACT holds no file of
  a restored message: nothing removes what an earlier process left there, and linking the file again
  ends the process (`ManagerRuns.StartSafeIff`). The start-up sort leaves ACT at 0 and IN at 1.
  Directories are sets of inodes; what `read` returns from the sender's pipe, clocks and signals are
  parameters.
- Packer: the 56-bit time is an exact integer, a float is four opaque octets, `OV` is not given with
  types 1 and 30. That the input is sorted is not needed.

## What turned out otherwise than the code suggests

- A long run of consecutive single points overflows the 7-bit count: from 128 objects in an ASDU on
  the printed qualifier is wrong (`PackingRuns.PreservedIff`, `PackingRuns.LongRunFails`).
- The packer allows 249 octets of data plus 6 of header, the bridge keeps 249 in all: 49 consecutive
  measured values are cut, and so are 31 scattered ones (`Survival.InputSurvivesIff`).
- `<` is printed when everything in the backlog has been sent, not when it has been acknowledged,
  and in the same branch the backlog's tail pointer is left behind; the next message can lose ASDUs
  (`Handshake.ConfirmExact`, `Handshake.LossExact`, `Handshake.LongMessageLoses`). Neither happens while no
  message is longer than the window (`Handshake.ShortMessagesConfirmed`).
- Restarting the link test with an answer outstanding makes the second answer fatal on a healthy
  connection, and nothing else does (`LinkRuns.OpenIffCalm`, `LinkCases.OverlapHappens`).
- A test answer stops t1 even with frames unacknowledged (`Supervision.StepSupervised`,
  `LinkCases.UnsupervisedHappens`).
- Acknowledging does not run the write queue: ASDUs queued beyond the window stay queued behind an
  open window until the user queues another (`WriteQueue.StallsIff`, `WriteQueue.StalledUntilNext`,
  `LinkCases.StallHappens`). A user who keeps to `can_queue`, as the bridge does, is never affected
  (`WriteQueue.EmptyThroughoutIff`).
- After a crash with a message in flight the manager dies again at the next attempt to send it
  (`ManagerRuns.StartSafeIff`).
- A callback that ends inside a frame header aborts the program (`Framing.FramingExact`).
- The SMS unpacker shows one character too many when the text length is 7 modulo 8
  (`GsmSeptets.RoundTripIff`).

## Model

| member | source | states |
|---|---|---|
| `LinkWindow.CheckNrExact` | ieclink/iecsock.c:221-224 | with V(S), V(A) residues of the counters sent and acked, the test accepts a number exactly when it is the residue of some count between acked and sent |
| `LinkWindow.CheckNrUnique` | ieclink/iecsock.c:221-224 | that count is unique, so V(A) goes on standing for one counter |
| `LinkWindow.CheckNrAlias` | ieclink/iecsock.c:221-224 | 32767 is accepted exactly when 0 is |
| `LinkWindow.WindowExact` | ieclink/iecsock.c:623-626 | can_queue is acked + k - sent, and is positive exactly while the send loop's window test is open |
| `LinkWindow.DrainExact` | ieclink/iecsock.c:179-198 | the send loop transmits exactly the first min(queued, window) ASDUs, numbered consecutively, keeps them for retransmission and leaves the rest |
| `LinkWindow.SubmitAllExact` | ieclink/iecsock.c:171-203 | queueing ASDUs one by one with a run of the loop after each sends what queueing all and running once would |
| `IecSock.Session.constructor` | ieclink/iecsock.c:467-525 | a fresh session: counters zero, queues empty, stopped; a master has sent STARTACT under t1 |
| `IecSock.Session.RunWriteQueue` | ieclink/iecsock.c:171-203 | the loop does what the function Drain says: state, frames written, nothing delivered; a stopped slave sends nothing |
| `IecSock.Session.Submit` | ieclink/ieclink.c:63-75 | the ASDU joins the write queue and the loop runs |
| `IecSock.Session.RunAckwQueue` | ieclink/iecsock.c:205-219 | frames leave the head until the one numbered N(R) |
| `IecSock.Session.TakeNr` | ieclink/iecsock.c:241-248 | V(A) becomes N(R); with nothing outstanding t1 stops and the user is woken, as `LinkTimers.AcknowledgeTimers` spells out |
| `IecSock.Session.TakeNs` | ieclink/iecsock.c:249-267 | t2 restarts; a wrong N(S) is refused; else V(R) advances, the w-th frame is acknowledged at once, the ASDU is delivered |
| `IecSock.Session.IFrameRecv` | ieclink/iecsock.c:231-268 | receipt of an I-frame: refusal, acknowledgement (without pruning), delivery |
| `IecSock.Session.SFrameRecv` | ieclink/iecsock.c:270-291 | receipt of an S-frame: refusal, pruning, acknowledgement |
| `IecSock.Session.UFrameRecv` | ieclink/iecsock.c:293-356 | the six control functions with their role checks, answers and timers |
| `IecSock.Session.FrameRecv` | ieclink/iecsock.c:358-400 | t3 restarts, and the frame goes to its handler; a stopped slave ignores I-frames |
| `LinkTimers.AcknowledgeTimers` | ieclink/iecsock.c:241-248 | after a full acknowledgement t1 is pending exactly if the wakeup sent something; after a partial one as before; every frame sent is kept |
| `LinkTimers.StepLaw` | ieclink/iecsock.c:171-400 | for every callback between two ends of the invariant: exactly when t1, t2 and t3 are pending afterwards, what has become of the retransmission queue, and whether anything is unacknowledged |
| `LinkTimers.RefusedIff` | ieclink/iecsock.c:226-356 | a session refuses a frame, and closes, exactly for a wrong N(S), a function not for its role, or an answer to no test |
| `LinkTimers.StoppedSlaveIgnores` | ieclink/iecsock.c:376-380 | a stopped slave does nothing with an I-frame but restart t3 |
| `LinkTimers.TimersInRun` | ieclink/iecsock.c:109-152 | in every run, faulty or not, a pending t1 has an unacknowledged frame, a test or the start to watch over, and a started master has t3 pending or a test outstanding |
| `WriteQueue.StepQueue` | ieclink/iecsock.c:171-305 | every callback appends what the user hands over and sends from the head: as much as the window admits if it queues something or activates a slave, and nothing otherwise |
| `WriteQueue.NothingForgotten` | ieclink/iecsock.c:171-305 | in every run, faulty or not, what a user handed over is what was sent followed by what is queued, in order, and the other user was given a prefix of it |
| `WriteQueue.StallsIff` | ieclink/iecsock.c:240-248 | a session comes to have ASDUs queued behind an open window exactly by an acknowledgement that arrives while some are queued and whose wakeup queues none |
| `WriteQueue.EmptyIff` | ieclink/iecsock.c:623-626 | from an empty write queue a callback leaves it empty exactly if the user queues no more than can_queue admits, on a session that may send |
| `WriteQueue.EmptyThroughoutIff` | ieclink/iecsock.c:623-626 | over every run the write queue stays empty exactly if every step is such; all that was handed over is then sent |
| `WriteQueue.StalledUntilNext` | ieclink/iecsock.c:240-288 | in every continuation, a master sends none of what it has queued until its user queues another ASDU |
| `LinkRuns.Flags` | ieclink/iecsock.c:293-356 | exactly which frames and timers move the start/stop and test flags |
| `Link.NsUnambiguous` | ieclink/iecsock.c:226-229 | among frames that can be in flight, N(S) = V(R) modulo 32767 only for the next one |
| `Link.PruneExact` | ieclink/iecsock.c:205-219 | pruning leaves exactly the unacknowledged frames if the queue held fewer than 32767 |
| `Link.StepKeepsPair` | ieclink/iecsock.c:171-400 | every callback, loss or repetition keeps the two-party invariant on counters, queues and channels |
| `LinkRuns.DeliveredIsPrefix` | ieclink/iecsock.c:226-268 | in every run, with frames lost or repeated in place, each side was given a prefix of what the other sent, in order, without repeats |
| `LinkRuns.SequenceNumbers` | ieclink/iecsock.c:197-256 | in every run V(S), V(A), V(R) are the numbers of I-frames sent, acknowledged and received modulo 32767, and no frame in flight to an open side bears the 15-bit number 32767 |
| `LinkRuns.CountersOrdered` | ieclink/iecsock.c:171-291 | in every run acked <= every N(R) in flight <= received <= sent <= acked + k |
| `LinkRuns.NrNeverRefused` | ieclink/iecsock.c:237-238 | even over a faulty channel check_nr accepts the peer's next frame |
| `LinkRuns.AckwQueueInRun` | ieclink/iecsock.c:194-219 | the retransmission queue is a run of consecutive frames ending at V(S) - 1, its last V(S) - V(A) the unacknowledged ones |
| `LinkRuns.AckwQueueAfterS` | ieclink/iecsock.c:279-280 | in every run, after an S-frame the queue holds exactly the unacknowledged frames if and only if fewer than 32767 acknowledged ones had piled up |
| `LinkRuns.StepHealthy` | ieclink/iecsock.c:171-400 | every step of a reliable run keeps: nothing lost in the channels, V(R) != V(A) of the peer implies t2 pending, fewer than w unacknowledged, at most one test outstanding |
| `LinkRuns.NeverRefused` | ieclink/iecsock.c:231-356 | in a reliable run, with any interleaving, neither side ever refuses a frame |
| `LinkRuns.NothingLost` | ieclink/iecsock.c:231-268 | once a channel is empty, everything sent into it was delivered |
| `LinkRuns.QuiescentIsAcknowledged` | ieclink/iecsock.c:123-259 | both channels empty and no t2 pending: everything is acknowledged and delivered on both sides |
| `LinkRuns.NoWindowDeadlock` | ieclink/iecsock.c:179-259 | with empty channels fewer than w frames are unacknowledged, so w <= k leaves the window open |
| `LinkRuns.OverlapCloses` | ieclink/iecsock.c:341-352 | a session with more test answers to come than its one flag allows is closed once the channels are read, whatever else happens short of a fault |
| `LinkRuns.OverlapDooms` | ieclink/iecsock.c:146-152 | t3 expiring with an answer outstanding brings a healthy session there |
| `LinkRuns.OpenIffCalm` | ieclink/iecsock.c:341-352 | from a healthy state, without faults and with the channels read, both sessions are open if and only if t3 never expired with a test answer outstanding |
| `LinkRuns.OpenIffCalmInRun` | ieclink/iecsock.c:341-352 | the same from start-up |
| `LinkCases.OverlapHappens` | ieclink/iecsock.c:341-352 | a run of the default configuration from start-up, without any fault, that ends with the channels read and the master's session closed |
| `Supervision.USupervised` | ieclink/iecsock.c:311-352 | a U-frame ends t1 supervision exactly when it is an accepted STARTCON or TESTCON with frames outstanding |
| `Supervision.StepSupervised` | ieclink/iecsock.c:171-356 | in a reliable run a step ends t1 supervision if and only if it accepts a test answer with frames outstanding |
| `Supervision.SupervisedWithoutTests` | ieclink/iecsock.c:189-191 | without link tests t1 is pending whenever something is unacknowledged |
| `LinkCases.UnsupervisedHappens` | ieclink/iecsock.c:347-351 | a reliable run from start-up that ends with a frame unacknowledged and t1 not pending |
| `LinkCases.StallHappens` | ieclink/iecsock.c:279-288 | a reliable run from start-up that ends with the channels read, everything acknowledged, the window open and an ASDU queued, which no continuation without a new ASDU sends |
| `Framing.FrameRoundTrip` | ieclink/iecsock_internal.h:61-85 | type, N(S), N(R), function and payload survive encoding and decoding |
| `Framing.WireLayout` | ieclink/iecsock.c:55-107 | the octets of every frame as the standard lays them down: start octet 68, length, doubled numbers low octet first, the six control functions |
| `Framing.TypeBits` | ieclink/iecsock_internal.h:61-69 | any six octets: the two lowest bits give the type, numbers are halved, the rest is the ASDU |
| `Framing.LowestBit` | ieclink/iecsock_internal.h:71-85 | of several function bits the lowest decides, and without any the function is TESTCON |
| `Framing.HeaderRefusedIff` | ieclink/iecsock.c:408-416 | six octets between frames close the session exactly if the first is not 68 or the length is not from 4 to 253 |
| `Framing.BufferReadSound` | ieclink/iecsock.c:402-438 | for any input, while a frame is incomplete the octets there and the octets lacking make up its length, at most 255 |
| `Framing.CallbackExact` | ieclink/iecsock.c:440-448 | one callback over well-formed APDUs moves the reader to the offset where the octets end, or aborts if that is inside a header |
| `Framing.FramingExact` | ieclink/iecsock.c:402-448 | any list of frames cut into any pieces is recovered exactly if and only if no piece ends inside a 6-octet header; otherwise the assertion aborts |
| `FrameBuffer.Assembler.Store` | ieclink/iecsock.c:427-429 | octets are appended behind those in the buffer |
| `FrameBuffer.Assembler.BufferRead` | ieclink/iecsock.c:402-438 | one read: header or body, and the completed frame handed on |
| `FrameBuffer.Assembler.ReadCallback` | ieclink/iecsock.c:440-448 | reads until the input is used up, within the 255-octet array |
| `StdinLines.ParseLine` | ieclink/ieclink.c:94-111 | the digit loop: says whether the whole line is hexadecimal pairs, and if so keeps their octets, the first 249 |
| `StdinLines.ScanConcat` | ieclink/ieclink.c:84-158 | scanning a text in two reads gives what scanning it in one gives |
| `StdinLines.ReadsDoNotMatter` | ieclink/ieclink.c:84-158 | any number of reads, as long as the buffer does not fill and nothing follows an end mark |
| `StdinLines.LineRoundTrip` | ieclink/ieclink.c:225-228 | a printed ASDU is read back as itself if and only if it has at most 249 octets, else its first 249 |
| `StdinLines.MessageRead` | ieclink/ieclink.c:84-158 | a message of short lines and `>` is taken line by line, for every way of cutting its text into reads |
| `StdinLines.MessageRoundTrip` | ieclink/ieclink.c:84-158 | every list of ASDUs of 1 to 249 octets, printed and cut anyhow, is recovered exactly |
| `StdinLines.BadLineIgnored` | ieclink/ieclink.c:113-142 | lines of odd length or with a non-hexadecimal character contribute nothing |
| `StdinLines.MarkDropsRest` | ieclink/ieclink.c:134-140 | a line that begins with `>` ends the message, and what was read behind it is thrown away |
| `StdinLines.FullBufferDropped` | ieclink/ieclink.c:157-158 | 1024 characters without a newline are thrown away, fewer are kept |
| `HexText.DigitsExact` | ieclink/ieclink.c:99-103 | the value of every character: digits, letters in both cases, and nothing else |
| `Backlog.SendExact` | ieclink/ieclink.c:63-75 | with the window open an ASDU leaves at once as one numbered frame and the write queue is empty again |
| `Backlog.ReadLoopText` | ieclink/ieclink.c:77-167 | the callback takes exactly the items of the text it read, stopping early only at `>` or with the size counter at 12 |
| `Backlog.ReadsExact` | ieclink/ieclink.c:84-166 | of what is there to read, the callback takes exactly the reads up to the first after which it stops, at `>` or with the size counter at 12 |
| `Backlog.StdinReadExact` | ieclink/ieclink.c:77-167 | of the lines taken, as many as the window holds leave at once; the rest go to the backlog, or astray if the tail pointer is stale |
| `Handshake.KickLoopExact` | ieclink/ieclink.c:175-184 | the wakeup loop sends exactly the longest prefix of the backlog that the window holds |
| `Handshake.RecvRefines` | ieclink/ieclink.c:169-205 | receipt with the real hook is receipt in the link layer with that prefix queued at the wakeup |
| `Handshake.StepLinked` | ieclink/ieclink.c:63-252 | every event keeps: write queue empty; taken = sent then backlog, in order, interleaved with what was lost; input asked for only with an empty backlog and no confirmation owed |
| `Handshake.BacklogInOrder` | ieclink/ieclink.c:63-205 | the same over every run, and `>` and `<` alternate |
| `Handshake.ConfirmExact` | ieclink/ieclink.c:186-202 | `<` is printed if and only if everything sent is acknowledged, `>` was taken and the backlog fits the window; everything taken is then sent, and acknowledged only if the backlog was empty |
| `Handshake.WakeupExact` | ieclink/ieclink.c:169-205 | all that a wakeup changes in the bridge: backlog, tail pointer, input asked for, confirmation owed and printed |
| `Handshake.AsksIff` | ieclink/ieclink.c:186-202 | receipt of a frame makes the bridge ask for input exactly at the start, or at a full acknowledgement with a backlog that fits the window |
| `Handshake.LossExact` | ieclink/ieclink.c:120-131 | a callback loses an ASDU if and only if the tail pointer is stale and the text it reads has more data lines than the window has room for |
| `Handshake.ShortMessagesConfirmed` | ieclink/ieclink.c:63-205 | while no message is longer than the window nothing is put aside or lost and every `<` means that all is acknowledged |
| `Handshake.LongMessageLoses` | ieclink/ieclink.c:192-202 | for every window, a message of k + 1 ASDUs and then one of k, one line a read, lose an ASDU, the first having been confirmed with one unacknowledged |
| `IecLink.FindNewline` | ieclink/ieclink.c:90 | the first newline at or after a position |
| `IecLink.Bridge.AsduSend` | ieclink/ieclink.c:63-75 | the ASDU is queued and the send loop runs |
| `IecLink.Bridge.TakeAsdu` | ieclink/ieclink.c:117-131 | sent if the window has room, else linked behind the tail pointer and counted |
| `IecLink.Bridge.TakeLine` | ieclink/ieclink.c:94-142 | one line does what its item says |
| `IecLink.Bridge.ScanBuffer` | ieclink/ieclink.c:89-155 | the loop over the lines of the buffer takes all complete lines and keeps the rest |
| `IecLink.Bridge.StdinRead` | ieclink/ieclink.c:77-167 | the whole callback, as the function StdinRead says |
| `IecLink.Bridge.KickCallback` | ieclink/ieclink.c:169-205 | the wakeup hook, as the function Kick says and `Handshake.WakeupExact` spells out |
| `IecLink.Bridge.FrameRecv` | ieclink/iecsock.c:358-400 | receipt with the hooks of ieclink, as the function Recv says |
| `TimerHeap.InsertedRefines` | quemngr/heapfunc.c:51-71 | insertion keeps heap order and adds exactly one node to the multiset |
| `TimerHeap.RemovedRefines` | quemngr/heapfunc.c:73-104 | extraction keeps heap order and removes exactly the root, which is a minimum |
| `TimerHeap.RootIsMin` | quemngr/heapfunc.c:42-49 | in heap order the root is not after any node |
| `TimerHeap.NotAfterExact` | quemngr/heapfunc.c:66 | keys are ordered by time, in microseconds |
| `TimerHeap.ExtractAllSorts` | quemngr/heapfunc.c:92-104 | repeated extraction yields a sorted permutation |
| `TimerHeap.Heap.constructor` | quemngr/heapfunc.c:14-30 | an empty heap, for every initial size of at least 1 |
| `TimerHeap.Heap.Min` | quemngr/heapfunc.c:42-49 | nothing on an empty heap, else a least node |
| `TimerHeap.Heap.Grow` | quemngr/heapfunc.c:56-59 | room for one more node, the live part unchanged |
| `TimerHeap.Heap.Insert` | quemngr/heapfunc.c:51-71 | the contents gain exactly the new node, within the array |
| `TimerHeap.Heap.Heapify` | quemngr/heapfunc.c:73-90 | the loop sifts down as the function says |
| `TimerHeap.Heap.ExtractMin` | quemngr/heapfunc.c:92-104 | a least node leaves the contents; on an empty heap a zero node and no change |
| `MsgList.ElemFind` | quemngr/quecontrol.c:75-86 | negative exactly when the inode is absent, else the index of the first entry with it |
| `MsgList.ElemDel` | quemngr/quecontrol.c:88-102 | the list without the first entry of the inode |
| `MsgList.DelExact` | quemngr/quecontrol.c:88-102 | deletion removes that inode and nothing else and keeps entries distinct |
| `MsgList.SortByTimeExact` | quemngr/quecontrol.c:166-170 | the sorted list is a permutation in order of modification time |
| `Scheduler.CountersInRange` | quemngr/quemngr.c:339-350 | 0 <= conf <= send <= total, and send within its window |
| `Scheduler.IdleQueueNotInAct` | quemngr/quemngr.c:337-351 | with nothing of a queue in flight none of its files is linked in act |
| `Scheduler.FeedBase` | quemngr/quemngr.c:339-350 | dispatching the head of a queue keeps the books and never links a file twice |
| `Scheduler.ResponseBase` | quemngr/quemngr.c:181-267 | every promised answer keeps the books: each message in exactly one queue, delivered or failed; counters equal to what ACT holds |
| `SchedulerRuns.TimerNotInAct` | quemngr/quemngr.c:540-567 | the timer branch never dispatches a file that is already in ACT |
| `SchedulerRuns.TimerFatalIff` | quemngr/quemngr.c:553-555 | a timer whose message is in its queue ends the process if and only if the message is already in ACT and the window allows a dispatch |
| `SchedulerRuns.FeedExact` | quemngr/quemngr.c:339-350 | a queue is fed its first message, only with none in flight, and nothing else changes |
| `SchedulerRuns.TimerExact` | quemngr/quemngr.c:540-567 | an expired timer goes if its message has gone; with fewer than ten in flight, all confirmed, the message goes out and the timer goes; else nothing changes |
| `SchedulerRuns.TimerSteady` | quemngr/quemngr.c:540-567 | a timer expiry, stale or not, keeps: no ACT entry of a deferred queue has a timer, every other deferred message has one |
| `SchedulerRuns.ResponseSteady` | quemngr/quemngr.c:181-267 | so does every answer |
| `SchedulerRuns.FeedInSteady` | quemngr/quemngr.c:492-499 | so does the dispatch from IN |
| `SchedulerRuns.ScanSteady` | quemngr/quemngr.c:91-126 | so does taking new messages from drop |
| `Flushing.FlushKeeps` | quemngr/quemngr.c:337-358 | a flush keeps the books whatever the sender answers, even when failures feed the queue being flushed |
| `Flushing.FlushReturns` | quemngr/quemngr.c:324-361 | a flush that returns leaves ACT and IN empty and every deferred message under a timer |
| `Flushing.ResponseRank` | quemngr/quemngr.c:200-265 | every answer strictly lowers a rank of all live messages |
| `Flushing.FailureRaises` | quemngr/quemngr.c:57-263 | a failure moves the message up by exactly one queue and adds exactly one timer, due after that queue's timeout; in the last queue, to fail without a timer |
| `Flushing.FailureAppends` | quemngr/quemngr.c:254-258 | it joins the end of that queue's list, and queues beside the two stay as they are |
| `Flushing.DeliveryLeaves` | quemngr/quemngr.c:200-219 | a delivery takes exactly that message out of its queue and out of ACT |
| `Flushing.ConfirmationCounts` | quemngr/quemngr.c:192-223 | a confirmation is counted and moves nothing; an answer for a message not in ACT is ignored |
| `Flushing.FlushBounded` | quemngr/quemngr.c:335-358 | dispatches and answers of a flush together never exceed the initial rank |
| `Flushing.FlushEnds` | quemngr/quemngr.c:335-358 | so it returns, for every sequence of answers, before the pipe has been drained more often than the rank |
| `Flushing.FlushNeverIdle` | quemngr/quemngr.c:338-356 | while a queue is not empty the sender holds a message, so an answer is due |
| `FlushAttempts.FlushTriesOnce` | quemngr/quemngr.c:324-361 | every message that waits when a flush begins, and is not with the sender, is tried exactly once by it, from the queue it waits in |
| `FlushAttempts.AnswersCount` | quemngr/quemngr.c:353-355 | reading the pipe uses every answer: exactly what they report is delivered, and exactly what they dispose of leaves ACT |
| `ManagerRuns.StepHealthy` | quemngr/quemngr.c:489-632 | every event of the main loop, connected or not, keeps the invariant of books, timers, attempts and timeout |
| `ManagerRuns.Conservation` | quemngr/quemngr.c:181-361 | in every run, each time an inode number was accepted its message has been delivered since, is in one queue or in fail; no file operation fails; send counts a queue's entries in ACT and conf the confirmed ones, in range; every entry is in the queue it names |
| `ManagerRuns.NothingStranded` | quemngr/quemngr.c:245-263 | from the first flush on every deferred message is either in ACT or under a timer, never both and never neither |
| `ManagerRuns.AttemptsBounded` | quemngr/quemngr.c:225-263 | in every run the queues a message is tried from strictly rise, so there are at most countq attempts, timer dispatches and flushes included, and it is in fail only after one from the last queue |
| `ManagerRuns.TimeoutHasRoot` | quemngr/quemngr.c:540-547 | in every run poll can time out only with a timer in the heap, and then minnode is the root, of an existing queue |
| `ManagerRuns.OldestFirst` | quemngr/quemngr.c:492-499 | in every run a connected turn gives the sender the oldest message of IN, if none of IN is in flight |
| `ManagerRuns.UpFlushes` | quemngr/quemngr.c:610-625 | after the link came up nothing is in flight or in IN, every message found was accepted and every message left has a timer |
| `ManagerRuns.UpTriesOnce` | quemngr/quemngr.c:616-620 | and every message that waited was tried exactly once more, every message found exactly once, from IN |
| `ManagerRuns.DownIsIdle` | quemngr/quemngr.c:602-609 | after the link went down nothing is touched and poll has no timeout until it comes up, whatever happens meanwhile |
| `ManagerRuns.WaitInRun` | quemngr/quemngr.c:509-530 | in every run a connected turn gives poll a number of milliseconds that falls short of the earliest deadline by less than one, and exceeds neither it nor, if that is nearer, 25; without a timer, -1 |
| `ManagerRuns.RestoredStarts` | quemngr/quemngr.c:170-173 | lists that mirror disjoint directories with nothing sent, and a swept directory of ACT, satisfy the invariant that every run starts from |
| `ManagerRuns.StartSafeIff` | quemngr/quemngr.c:128-179 | no run ever fails a file operation if and only if the directory of ACT holds no restored inode at start-up |
| `ManagerRuns.FailingStart` | quemngr/quemngr.c:340-342 | otherwise the first flush, with a sender that delivers everything, ends the process |
| `QueueManager.Manager.constructor` | quemngr/quemngr.c:128-179 | restored queues and directories, left-over files in the directory of ACT, an empty heap |
| `QueueManager.Manager.Leave` | quemngr/quemngr.c:202-217 | the message leaves ACT, its queue and both directories; conf and send fall |
| `QueueManager.Manager.Defer` | quemngr/quemngr.c:252-261 | the message enters the next queue under a new timer, due after that queue's timeout |
| `QueueManager.Manager.CheckResponse` | quemngr/quemngr.c:181-267 | confirmation, delivery, failure for good or escalation, and the value returned |
| `QueueManager.Manager.FlushQueue` | quemngr/quemngr.c:324-361 | from the last queue down to IN, each until it is empty |
| `QueueManager.Manager.ScanDrop` | quemngr/quemngr.c:91-126 | new files enter IN, whose list becomes an ordered permutation by time |
| `QueueManager.Manager.SendDue` | quemngr/quemngr.c:547-564 | the timer's message goes out if it is still there and the window allows |
| `QueueManager.Manager.TimerExpired` | quemngr/quemngr.c:540-568 | and the timer leaves the heap if it has served |
| `QueueManager.Manager.BeginTurn` | quemngr/quemngr.c:491-530 | feed IN, and set timeout and minnode by the root of the heap |
| `QueueManager.Manager.QuietTurn` | quemngr/quemngr.c:491-568 | a turn in which poll times out acts on the root of the heap, which is there because the timeout was finite |
| `PollWait.TurnWait` | quemngr/quemngr.c:509-530 | both branches meet that bound in microseconds, whatever timeout was carried over; what they give for a deadline that is past or due within a millisecond; and what the next turn needs |
| `HexText.ParsePrint` | ieclink/ieclink.c:225-226 | reading printed octets gives them back |
| `HexText.Int2HexLoop` | scripts/asduconv:108-115 | the loop prints the leading octets of the padded number in reverse order |
| `HexText.Int2HexExact` | scripts/asduconv:108-115 | for numbers that fit, that is the number's octets, least significant first |
| `HexText.FromToLittleEndian` | scripts/asduconv:108-115 | those octets give the number back |
| `AsduCodec.QdsLoop` | scripts/asduconv:180-197 | the loop sums the weights of the flags |
| `AsduCodec.TimeText` | scripts/asduconv:172-178 | the printed 56-bit sum is the seven octets of CP56Time2a |
| `AsduCodec.IeHexExact` | scripts/asduconv:95-106 | the text of an element is the printed octets that the standard lays down for its type |
| `AsduCodec.FormObjExact` | scripts/asduconv:90-93 | and of an object, its three-octet address before them |
| `AsduCodec.ElemDecodes` | ieclink/iec104_types.h:78-92 | the decoder of the standard's layout recovers every element |
| `AsduPacker.NextSound` | scripts/asduconv:23-81 | each record joins the open ASDU or begins one; order is kept and every ASDU stays good: one address, one type, at most 498 digits of data, consecutive objects if SQ is 1 |
| `AsduPacker.PackPartitions` | scripts/asduconv:23-81 | the ASDUs partition any input in order into good ones |
| `AsduPacker.ShownExact` | scripts/asduconv:83-88 | a qualifier beyond one octet is printed as its leading two digits |
| `AsduPacker.LineParses` | scripts/asduconv:83-88 | a printed line parses to header and data octets |
| `PackingMeaning.LineDecodes` | scripts/asduconv:83-93 | up to 127 objects a line decodes to exactly its records |
| `PackingMeaning.LineIdentifies` | scripts/asduconv:83-88 | type, cause of transmission and address are read back from the line |
| `PackingMeaning.LineOverflows` | scripts/asduconv:85 | beyond 127 it decodes to nothing or to fewer |
| `PackingMeaning.PackingPreservesMeaning` | scripts/asduconv:23-93 | decoding all lines gives back exactly the input, in order, if and only if every ASDU counts at most 127 |
| `PackingRuns.PreservedIff` | scripts/asduconv:23-93 | for any input: it comes back exactly if and only if no record opens an ASDU with 128 consecutive single points of one address from it on |
| `PackingRuns.ShortRunsPreserved` | scripts/asduconv:23-93 | so any input without 128 consecutive single points of one address comes back |
| `PackingRuns.LongRunFails` | scripts/asduconv:50-63 | any input with 129 of them does not |
| `PackingRuns.ExactRunIff` | scripts/asduconv:50-63 | and with one run of exactly 128, if and only if its first record does not open an ASDU |
| `PackingRuns.BoundaryOpens` | scripts/asduconv:24-32 | a record opens an ASDU at the start of the input and wherever address or type changes |
| `PackingRuns.RunPreservedIff` | scripts/asduconv:50-63 | an input that is one run of single points comes back if and only if it has at most 127 |
| `TimedGroups.TimedOpensIff` | scripts/asduconv:41-48 | in a run of records of one address and one type with time, exactly the records at multiples of 22 (type 30) or 16 (type 36) open an ASDU |
| `TimedGroups.TimedBlocks` | scripts/asduconv:41-48 | so n of them make exactly (n + 21) / 22 or (n + 15) / 16 ASDUs |
| `AsduConv.Packer.AssembleAsdu` | scripts/asduconv:40-76 | the branches of the script do what Next says; which records then share an ASDU is `TimedGroups.TimedOpensIff`, `PackingRuns.PreservedIff` and `Survival.InputSurvivesIff` |
| `AsduConv.Packer.TakeRecord` | scripts/asduconv:23-36 | the rule for a record, likewise |
| `AsduConv.Packer.Finish` | scripts/asduconv:38 | the last ASDU is printed; for no input, a line with type and count zero |
| `AsduConv.Transform` | scripts/asduconv:9-93 | the script prints the packing of the records it knows, ignoring other lines |
| `Pipeline.LineTaken` | ieclink/ieclink.c:109-118 | the bridge takes a packed line as one ASDU of at most 249 octets |
| `Pipeline.BlockTaken` | ieclink/ieclink.c:109-110 | such an ASDU decodes to its records if it has at most 127 records and 243 octets of data, and otherwise to nothing or to fewer |
| `Pipeline.SurvivesIff` | scripts/asduconv:23-93 | for any input, and its text cut into reads anyhow, the ASDUs taken by the bridge stand for exactly the input if and only if every block meets both bounds |
| `Survival.BlockSurvivesIff` | ieclink/ieclink.c:109-110 | which ASDUs survive: single points up to 127 in a run and 60 listed singly, measured values up to 48 and 30, with time always |
| `Survival.InputSurvivesIff` | scripts/asduconv:23-93 | for any input: it survives if and only if no record opens an ASDU with 128 consecutive or 61 scattered single points, or 49 consecutive or 31 scattered measured values from it on |
| `Survival.DeliveredIff` | ieclink/ieclink.c:84-158 | the same for what the bridge takes of the text, however it is cut into reads |
| `Survival.TimedSurvives` | scripts/asduconv:41-48 | records with time always survive |
| `Survival.MeasuredRunIff` | scripts/asduconv:50-63 | one run of measured values survives if and only if it has at most 48 |
| `Survival.ScatteredIff` | scripts/asduconv:64-74 | scattered records of one address and type survive if and only if there are at most 60 single points, or 30 measured values |
| `GsmSeptets.GsmDecode` | scripts/utils/sms_utils:117-150 | the loop shows the 7-bit groups of the octets, zero groups only in every eighth place |
| `GsmSeptets.UnpackPacked` | scripts/utils/sms_utils:126-147 | the groups of packed text are the text, with one zero septet more if its length is 7 modulo 8 |
| `GsmSeptets.PackChangesBase` | scripts/utils/sms_utils:126-147 | packed text is the same number in base 256 as the text in base 128 |
| `GsmSeptets.BackExact` | scripts/utils/sms_utils:126-147 | what decoding shows for any text |
| `GsmSeptets.RoundTripIff` | scripts/utils/sms_utils:131-141 | exactly which texts, zero septets included, come back unchanged |
| `GsmSeptets.NonZeroRoundTrip` | scripts/utils/sms_utils:117-150 | text without zero septets comes back if and only if its length is not 7 modulo 8 |

## Left out

- Sockets, libevent, connecting, listening and reconnecting, memory, everything after a close: foreign calls, here steps of channels and timers.
- Refusal inside `Framing`: a frame refused by the session closes it; the reader is modelled up to that point.
- `iecsock_set_options` in mid-connection.
- The backlog limit of 12 is modelled as the code has it (a counter never lowered, tested for equality after each read); no bound on the backlog is claimed.
- `iecproxy`, `sockwrite`, `ieclink/server.c`: plumbing between processes.
- The sender's pipe, signals, fork and exec of the queue manager, its termination handler and the count that flush_queue returns for the log.
- `initqueue` beyond its result: reading the deferred directories and sorting the queues; files in fail from before start-up.
- Overflow of the millisecond computation in 32 bits for deadlines weeks away.
- Rounding in awk: a 56-bit time needs more than a double for years from 32 on, and loses low bits there.
- `float2hex`: it depends on an external printf and half of it is commented out.
- `IecSock.Session`: the receive handler takes the ASDUs of the wakeup hook as a parameter; `IecLink.Bridge` has the real hook.
- `AsduConv.Packer` and `QueueManager.Manager`: the script's and the program's globals are grouped in one record field each, so their being separate variables is not modelled.
- `MsgList.ElemDel`: lists are values that the caller stores back, so growth and shifting of the array in place are not modelled.
- The ring buffer of the syslog client, logging, HTTP, SNMP and modem scripts.
