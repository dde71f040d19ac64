# pyMPI's message layer, collectives and code generator, verified

This project models the core of pyMPI 2.6a1 as shipped with Pynamic: how Python objects travel as one or two MPI
messages, the receive requests and collectives built on them, remote objects, communicator slicing and creation, and the
generator of Pynamic's C files. It proves, for all inputs, all runs and all schedules, what that code is for.

MPI is a step relation: one ordered queue of tagged frames per source and destination (the non-overtaking rule of section
3.5 of MPI 1.1), with buffered sends. cPickle is a codec whose `loads` undoes its `dumps`.

| file | what it holds |
|---|---|
| `Bits.dfy`, `Arithmetic.dfy`, `Folds.dfy` | masks, remainders and folds |
| `TreeReduction.dfy` | the tree-ordered reduction as a distributed system, and the mask loop of one rank |
| `Messages.dfy` | packing and unpacking, and the frames on the wire |
| `Buffers.dfy` | the same on header structs and malloc'd buffers; blocking send, receive, sendrecv and bcast |
| `Streams.dfy` | any number of processes with wildcard receives, exchanges and requests at once |
| `Requests.dfy`, `RequestObjects.dfy`, `RequestLists.dfy` | receive requests: the state machine, the object that refines it, and lists of them |
| `Collectives.dfy`, `Gathering.dfy`, `Reductions.dfy` | collecting, serial reduction, scan, scatter, gather, allgather, the operators and their table |
| `RemoteIds.dfy`, `RemoteObjects.dfy`, `RemoteRouting.dfy` | identifiers of remote objects, the housekeeping of requests, and which object a call reaches |
| `Naming.dfy`, `Generator.dfy`, `CallGraph.dfy` | the names, files and programs the generator writes, and what executing them does |
| `Communicators.dfy` | slices and inclusion lists |

`dafny verify dfyconfig.toml` checks everything.

## What the proofs brought to light

The code is modelled as it is. Where it does not do what its documentation or its design suggests, there is a concrete
failing input and, where a caller can avoid the failure, the exact condition.

- An `irecv` never delivers the empty string: the unpacker is given a null second argument and follows it
  (`Requests.EmptyStringFaults`, `Messages.NoPointerIff`). Every theorem about requests says what holds for it.
- The length field of the header is a C int: a string arrives intact if and only if its length fits
  (`Messages.StringRoundTripIff`), and a broadcast of a string whose length is a positive multiple of 2^32 leaves the
  root with one collective call more than the others (`Buffers.BcastCallsMatch`).
- Two unfinished receives that accept a common stream can mispair a header with another message's body; and nothing is
  ever mispaired if no process sends a stream that both accept (`Streams.SafeIffApart`).
- Reading `test_cancelled` can spoil the status of a request. The status is right, whatever MPI leaves in it after
  unsuccessful tests, if and only if `test_cancelled` was never read when the body had arrived and no test had noticed
  yet (`Requests.StatusRightIff`). Where a failed test leaves the right answer, even such a run can end well
  (`Requests.EatenButRight`).
- For an associative operator the tree reduction equals the serial one, at all roots and for all values, exactly if the
  operator is commutative too (`Collectives.TreeAlwaysAgreesIff`). If the operator raises in an allreduce, only the root raises: the others return
  the exception's type as if it were the result (`Collectives.SerialReduce`).
- The truth test of an `isend` request is true from the start, because the request holds its message; so the
  housekeeping drops every send at once (`RemoteObjects.SweepDropsAllIsends`).
- The identifiers of remote objects, called unique in the code, all differ if and only if every creation shares a process
  with the one listed before it (`RemoteIds.IdsUniqueIff`).
- A remote call is made on the object whose request took the message, without a look at the identifier in it. That is the
  object it is for, in all runs, if and only if no two receiving objects of a process share communicator and tag
  (`RemoteRouting.RightfulIff`); by default they all have tag 99.
- A slice of a communicator whose start is well beyond its stop raises instead of being empty
  (`Communicators.SliceSizeExact`).
- A comment in `pyMPI_comm_misc.c` (lines 98-100) says that ranks out of range are left out of a new communicator. The
  code refuses the list. And it looks at ranks only after storing them in C ints: what it accepts is good as given if and
  only if all elements fit (`Communicators.AcceptedVersusGiven`).
- A negative call depth is not refused by the generator, and then visits functions more than once exactly when there are
  more of them than its absolute value (`CallGraph.EntryOnceIff`).

## Model

| member | source | states |
|---|---|---|
| TreeReduction.RanksAreInverse | pynamic-pyMPI-2.6a1/pyMPI_comm_collective.c:473-495 | the case-split rotations used in the model are the remainder expressions of the code, and wrapping and unwrapping a rank undo each other |
| TreeReduction.ActionBits | pynamic-pyMPI-2.6a1/pyMPI_comm_collective.c:482-511 | what the bit operations decide: a process sends exactly at its lowest set bit, to the rank with that bit cleared; before that it receives from the rank with one more bit set, which is its child at that bit, or skips |
| TreeReduction.StepInv | pynamic-pyMPI-2.6a1/pyMPI_comm_collective.c:482-512 | every step of every process keeps the invariant: an active wrapped rank w holds the fold of w to min(w+mask,size)-1, and each queue holds its child's block exactly between that child's send and the parent's receive |
| TreeReduction.Progress | pynamic-pyMPI-2.6a1/pyMPI_comm_collective.c:482-512 | a state reached is stuck if and only if all processes are done: no deadlock |
| TreeReduction.RunsAreShort | pynamic-pyMPI-2.6a1/pyMPI_comm_collective.c:482-512 | any schedule of any length uses up size * (1 + ceil(log2 size)) units of fuel, so every run ends |
| TreeReduction.TreeReduceCorrect | pynamic-pyMPI-2.6a1/pyMPI_comm_collective.c:472-512 | for every size, root, values, associative operator and interleaving: the run is short and cannot be stuck early; at the end the root holds the fold in the order root, root+1, ..., root-1, every other process has sent once, to its parent, size-1 messages were sent and none is left |
| TreeReduction.CompleteRun | pynamic-pyMPI-2.6a1/pyMPI_comm_collective.c:482-512 | every run can be completed |
| TreeReduction.ReduceOnRank | pynamic-pyMPI-2.6a1/pyMPI_comm_collective.c:479-512 | the mask loop of one process, given what its children send: the root returns the whole fold and sends nothing, any other process sends the fold of its block once to its parent |
| Messages.Pack | pynamic-pyMPI-2.6a1/pyMPI_util.c:361-407 | the second buffer is non-null exactly when the header announces a second message, and of that length, for every payload whose length fits an int; for a longer string this fails |
| Messages.Frames | pynamic-pyMPI-2.6a1/pyMPI_send.c:36-57 | one header frame, and exactly one body frame of the announced length if the header announces one |
| Messages.OneFrameIffEager | pynamic-pyMPI-2.6a1/pyMPI_util.c:390-518 | one frame exactly for integers, floats, and what is no longer than the eager limit less the header; two otherwise |
| Messages.RoundTrip | pynamic-pyMPI-2.6a1/pyMPI_util.c:217-341 | unpacking what packing produced gives the value back, on either side of the prefix limit, and prefix and body are never both used |
| Messages.SendableArrives | pynamic-pyMPI-2.6a1/pyMPI_send.c:36-57 | where the length fits an int, what a send transmits and a receive makes of it is the round trip |
| Messages.StringRoundTripIff | pynamic-pyMPI-2.6a1/pyMPI_util.c:385-407 | what the receive makes of what the send transmits is the string again if and only if its length fits a C int |
| Messages.NoPointerIff | pynamic-pyMPI-2.6a1/pyMPI_util.c:235-243 | with a null second argument, unpacking a one-frame message works for everything but the empty string, which follows the null pointer |
| Buffers.MessageBuffer.Pack | pynamic-pyMPI-2.6a1/pyMPI_util.c:350-518 | the in-place packer leaves the header and prefix that the specification says, allocating only for a long pickle, borrowing a long string, and leaving everything else allocated alone |
| Buffers.MessageBuffer.MessageFree | pynamic-pyMPI-2.6a1/pyMPI_util.c:181-200 | frees an allocation exactly when the header owns it, and nulls the pointer |
| Buffers.MessageBuffer.Unpack | pynamic-pyMPI-2.6a1/pyMPI_util.c:207-341 | the in-place unpacker returns what the specification says, releases the second buffer exactly when it is owned or the string branch claims it, and nulls the pointer |
| Buffers.PyMpiSend | pynamic-pyMPI-2.6a1/pyMPI_send.c:20-67 | for any object, also one whose length does not fit: appends exactly the frames it can transmit, reports the error if the announced length is negative, and leaves the heap as it was |
| Buffers.PyMpiRecv | pynamic-pyMPI-2.6a1/pyMPI_recv.c:38-63 | takes exactly the frames that a send of any object left, returns what they make (the object, if its length fits) with the sender and tag, and leaves the heap as it was |
| Buffers.Exchange | pynamic-pyMPI-2.6a1/pyMPI_comm_message.c:171-204 | for any object: sends the frames it can transmit, takes the header that arrives, and reports the error if the announced length is negative, leaving the other side's body where it is |
| Buffers.SendRecv | pynamic-pyMPI-2.6a1/pyMPI_comm_message.c:171-230 | for any two objects: the frames of the one are sent and those of the other taken, with what they make (the object, if its length fits) and its sender and tag; four buffers, each released exactly once |
| Buffers.BcastRoot | pynamic-pyMPI-2.6a1/pyMPI_comm_collective.c:188-205 | the root's broadcast calls, decided on the overflow pointer: the frames of the message if its length fits; heap unchanged |
| Buffers.BcastSlave | pynamic-pyMPI-2.6a1/pyMPI_comm_collective.c:206-229 | for any object the root broadcasts, the others decide on the header, and return what the frames they take make; if the length fits that is the root's value after as many calls; heap unchanged |
| Buffers.BcastCallsMatch | pynamic-pyMPI-2.6a1/pyMPI_comm_collective.c:199-225 | root and others make the same number of MPI_Bcast calls for every value whose length fits an int; for strings the two come apart exactly when the length is a positive multiple of 2^32 |
| Streams.EventInv | pynamic-pyMPI-2.6a1/pyMPI_recv.c:38-59 | every event of every process keeps the stream invariant: got is a prefix of sent, and a held header, the frames on the channel and the body still owed are together the frames of the rest |
| Streams.StreamsCarryWholeMessages | pynamic-pyMPI-2.6a1/pyMPI_comm_message.c:176-220 | in every state of every run of many senders, tags, wildcards and requests: nothing is mispaired, objects arrive in order without loss or duplication, and a quiet stream is a sequence of whole messages |
| Streams.ReceivesPairHeaderAndBody | pynamic-pyMPI-2.6a1/pyMPI_recv.c:38-59 | the frame that a receive matches first, wildcards or not, is the header of the oldest message not yet received on its stream, and after narrowing it is that message's body |
| Streams.BlockedOnlyOnFrames | pynamic-pyMPI-2.6a1/pyMPI_comm_message.c:176-220 | in any world, a process is free for a new call, or can send what it owes, or is in a receive that can go on exactly when a frame for it is on a channel |
| Streams.HeadTaken | pynamic-pyMPI-2.6a1/pyMPI_recv.c:38-59 | taking a header delivers the oldest message not yet received if it has no body, ends the receive and changes nothing else; otherwise it narrows the receive to that message |
| Streams.BodyTaken | pynamic-pyMPI-2.6a1/pyMPI_recv.c:51-63 | taking a body delivers its message, ends the receive and changes nothing else |
| Streams.CallsReturn | pynamic-pyMPI-2.6a1/pyMPI_comm_message.c:176-230 | in which call, if any, a process is after each event: a send ends after one or two frames, a receive with the last frame of its message, an exchange with whichever is last |
| Streams.BodyComes | pynamic-pyMPI-2.6a1/pyMPI_recv.c:51-57 | the body that a narrowed receive waits for is on its channel, or its sender still owes it |
| Streams.StuckOnlyOnHeaders | pynamic-pyMPI-2.6a1/pyMPI_comm_message.c:176-220 | in any state of any run in which no blocking call can go on, every blocked process waits for a header that nobody has sent it, or for the body of a sender that waits for such a header in an exchange |
| Streams.ClashIff | pynamic-pyMPI-2.6a1/pyMPI_recv.c:48-57 | two unfinished receives clash exactly when there is a process and a tag that both accept |
| Streams.ClashingRequestsMispair | pynamic-pyMPI-2.6a1/pyMPI_request.c:41-51 | the discipline is needed: wherever two posted requests clash on a quiet stream, one long message corrupts the second |
| Streams.ClashCorrupts | pynamic-pyMPI-2.6a1/pyMPI_request.c:41-51 | and a process that begins by posting any two receives that clash can run into that |
| Streams.SafeIffApart | pynamic-pyMPI-2.6a1/pyMPI_request.c:41-51 | for two receives that a process posts first: whatever follows within the discipline, nothing is mispaired, if and only if no process sends a stream that both accept |
| Requests.HappenInv | pynamic-pyMPI-2.6a1/pyMPI_request.c:33-53 | every poll, truth test, wait, attribute read or arrival keeps the states of a request consistent |
| Requests.RequestIsAtomicReceive | pynamic-pyMPI-2.6a1/pyMPI_request.c:118-167 | under any sequence of them the request holds nothing or the message sent, and then all of it has arrived; the body receive is posted at most once, to the true sender and tag; only the empty string goes wrong |
| Requests.PostedIsFinal | pynamic-pyMPI-2.6a1/pyMPI_request.c:224-227 | once the message is there no later event changes any field |
| Requests.StatusNamesSender | pynamic-pyMPI-2.6a1/pyMPI_request.c:128-164 | whatever unsuccessful tests leave in the status: the status of a completed request names the true sender and tag unless test_cancelled used up the completion of the body |
| Requests.StatusRightIff | pynamic-pyMPI-2.6a1/pyMPI_request.c:454-461 | the status of a completed request is right whatever MPI leaves in the status after unsuccessful tests, if and only if test_cancelled was never read while the body receive was posted, the body had arrived, and no test had noticed |
| Requests.CancelledBlanksStatus | pynamic-pyMPI-2.6a1/pyMPI_request.c:454-461 | a run that fails: the message is still delivered, with the empty status |
| Requests.EatenButRight | pynamic-pyMPI-2.6a1/pyMPI_request.c:454-461 | a run that such a read does not spoil: an unsuccessful test left the right answer in the status, and a wait keeps it |
| Requests.PollAndWait | pynamic-pyMPI-2.6a1/pyMPI_request.c:224-259 | a poll reports ready exactly when the whole message has arrived, and then it is there; a wait always leaves it there |
| Requests.EventsDeliver | pynamic-pyMPI-2.6a1/pyMPI_request.c:118-434 | after any run, what each event does: a poll or truth test leaves the message there if and only if all of it has arrived, a wait or reading message or status always does, and nothing else delivers or loses it |
| Requests.EmptyStringFaults | pynamic-pyMPI-2.6a1/pyMPI_request.c:38-39 | for the empty string the first look after its header has arrived follows a null pointer |
| RequestObjects.Request.SecondMessage | pynamic-pyMPI-2.6a1/pyMPI_request.c:33-53 | the in-place method does what the specification says and frees or keeps the buffer so that nothing else on the heap changes |
| RequestObjects.Request.Test | pynamic-pyMPI-2.6a1/pyMPI_request.c:118-167 | likewise for the poll, which reports whether all of the message has arrived, and then holds it |
| RequestObjects.Request.Wait | pynamic-pyMPI-2.6a1/pyMPI_request.c:224-259 | likewise for the wait, after which the message is there |
| RequestObjects.Request.Nonzero | pynamic-pyMPI-2.6a1/pyMPI_request.c:600-616 | likewise for the truth test, which reports whether all of the message has arrived |
| RequestObjects.Request.GetMessage | pynamic-pyMPI-2.6a1/pyMPI_request.c:418-434 | returns the message that was sent, and then nothing that the request allocated is left |
| RequestLists.TestSome | pynamic-pyMPI-2.6a1/pyMPI_comm_asynchronous.c:444-468 | every request is polled once, in order, and the indices are those that reported ready |
| RequestLists.TestSomeSelectsArrived | pynamic-pyMPI-2.6a1/pyMPI_comm_asynchronous.c:444-468 | so they are exactly the indices of the requests whose whole message has arrived, and those are delivered with statuses that name their senders |
| RequestLists.WaitAll | pynamic-pyMPI-2.6a1/pyMPI_comm_asynchronous.c:554-565 | every request is waited for and its status collected, in order |
| RequestLists.WaitItemDelivers | pynamic-pyMPI-2.6a1/pyMPI_comm_asynchronous.c:560-561 | a request waited for holds its message and the status of its sender |
| Collectives.FromSent | pynamic-pyMPI-2.6a1/pyMPI_comm_collective.c:99-110 | a message sent joins the end of what its sender has sent, and nothing else changes |
| Collectives.Collect | pynamic-pyMPI-2.6a1/pyMPI_comm_collective.c:115-147 | whatever the arrival order, the values come out in rank order, plain or paired with their ranks as asked for, and exactly one message of each other rank is consumed |
| Collectives.SerialReduce | pynamic-pyMPI-2.6a1/pyMPI_comm_collective.c:533-669 | what every rank gets: the left fold of the collected values with the ground in front, on the root or by broadcast on all; if the operator raises, the root raises and the others return None or, after a broadcast, the type of the exception as a value |
| Collectives.SerialReduceValues | pynamic-pyMPI-2.6a1/pyMPI_comm_collective.c:533-564 | for an operator that does not raise, on plain values without a ground: the root, or after a broadcast every rank, gets their left fold as a plain value |
| Collectives.TreeAgreesWithSerial | pynamic-pyMPI-2.6a1/pyMPI_comm_collective.c:472-525 | every completed tree reduction equals the serial one, on the values and on the plain items that the root collects: at root 0 for an associative operator, at every root for one that is commutative too |
| Collectives.CommutativeIffRotatable | pynamic-pyMPI-2.6a1/pyMPI_comm_collective.c:472-495 | an associative operator is commutative if and only if no rotation of the operands changes a fold |
| Collectives.TreeAlwaysAgreesIff | pynamic-pyMPI-2.6a1/pyMPI_comm_collective.c:472-564 | for an associative operator, every completed tree reduction at every root over any values gives the serial result if and only if the operator is commutative |
| Collectives.Scan | pynamic-pyMPI-2.6a1/pyMPI_comm_collective.c:607-648 | the root keeps its value and sends every other rank i the fold of the ground and values 0..i, in rank order, with None where the operator raises |
| Collectives.ScanStep | pynamic-pyMPI-2.6a1/pyMPI_comm_collective.c:615-640 | element by element: the first value is the ground applied to the first element or that element itself, each other the operator applied to the one before, and None where the operator raises |
| Collectives.ScanAgreesWithSerial | pynamic-pyMPI-2.6a1/pyMPI_comm_collective.c:559-648 | rank i's scan value is the serial reduction of values 0..i with the same ground; so the last rank's is the serial reduction |
| Collectives.Scatter | pynamic-pyMPI-2.6a1/pyMPI_comm_collective.c:838-881 | what the root keeps and what it sends, put in rank order, are the whole sequence, in lengths that differ by at most one, the longer ones first; one message to each other rank, in rank order; None for all if slicing fails |
| Collectives.SentAt | pynamic-pyMPI-2.6a1/pyMPI_comm_collective.c:865-879 | message k goes to the k-th of the other ranks and holds its value |
| Collectives.SentAre | pynamic-pyMPI-2.6a1/pyMPI_comm_collective.c:865-879 | in scatter and scan, every rank but the root is sent its own value, once, in rank order, and nobody anything else |
| Collectives.SliceStartClosed | pynamic-pyMPI-2.6a1/pyMPI_comm_collective.c:839-856 | slice i starts at i*(L/n) + min(i, L mod n) |
| Collectives.SliceLength | pynamic-pyMPI-2.6a1/pyMPI_comm_collective.c:839-856 | slice lengths differ by at most one, the longer ones first |
| Collectives.ScatterPartitions | pynamic-pyMPI-2.6a1/pyMPI_comm_collective.c:848-880 | the slices in rank order put the sequence together again |
| Gathering.RegionsFit | pynamic-pyMPI-2.6a1/pyMPI_comm_collective.c:1238-1243 | the regions at the prefix sums are adjacent and disjoint |
| Gathering.LayOut | pynamic-pyMPI-2.6a1/pyMPI_comm_collective.c:1232-1243 | the in-place loop stores the sizes and their prefix sums; regions do not overlap and fill exactly the total |
| Gathering.MpiGatherv | pynamic-pyMPI-2.6a1/pyMPI_comm_collective.c:1248-1252 | after the gather every region holds the body of its rank |
| Gathering.UnpackRegion | pynamic-pyMPI-2.6a1/pyMPI_comm_collective.c:1263-1279 | the copy of a region, unpacked with its own header, is what that rank packed, and the copy is released |
| Gathering.Choose | pynamic-pyMPI-2.6a1/pyMPI_comm_collective.c:1180-1214 | a rank contributes the first count elements of its list, or all without a count, and raises if and only if the list is shorter than the count |
| Gathering.GatherRoot | pynamic-pyMPI-2.6a1/pyMPI_comm_collective.c:1188-1306 | the result is as long as the counts together, and element k of each rank's list, for k below its count, comes at k past the counts of the ranks before; heap unchanged |
| Gathering.AllGather | pynamic-pyMPI-2.6a1/pyMPI_comm_collective.c:1366-1398 | every rank gets that same list |
| Gathering.ConcatAt | pynamic-pyMPI-2.6a1/pyMPI_comm_collective.c:1257-1284 | where each element of each rank's part ends up |
| Gathering.ScatterGather | pynamic-pyMPI-2.6a1/pyMPI_comm_collective.c:848-880 | gathering, to any root, what scatter hands out from any root gives the sequence back |
| Reductions.OperatorsAssociateAndCommute | pynamic-pyMPI-2.6a1/pyMPI_reductions.c:152-187 | the numeric and logical operators meet the assumptions under which the tree and serial reductions agree |
| Reductions.SumAndProductReductions | pynamic-pyMPI-2.6a1/pyMPI_reductions.c:160-167 | SUM and PROD reductions yield the sum and the product of the values |
| Reductions.ExtremeReductions | pynamic-pyMPI-2.6a1/pyMPI_reductions.c:152-159 | MAX and MIN reductions yield a greatest and a least of the values |
| Reductions.LogicalReductions | pynamic-pyMPI-2.6a1/pyMPI_reductions.c:168-187 | over two or more ranks LAND is 1 just when all values are true, LOR when one is, LXOR when an odd number is |
| Reductions.MinLocWithoutGround | pynamic-pyMPI-2.6a1/pyMPI_reductions.c:192-195 | MINLOC yields the least value paired with the smallest rank that holds it, and only that |
| Reductions.MaxLocWithoutGround | pynamic-pyMPI-2.6a1/pyMPI_reductions.c:196-199 | MAXLOC likewise the greatest |
| Reductions.MinLocWithGround | pynamic-pyMPI-2.6a1/pyMPI_reductions.c:192-195 | a ground that is not a tuple raises; a tuple is kept unless some value is strictly below it |
| Reductions.ReductionTable.Register | pynamic-pyMPI-2.6a1/pyMPI_reductions.c:122-136 | the table stays sorted and gains exactly the new entry |
| Reductions.ReductionTable.Lookup | pynamic-pyMPI-2.6a1/pyMPI_reductions.c:51-69 | the binary search finds something exactly for the handles in the table, and what it finds was registered for that handle |
| Reductions.LookupRegistered | pynamic-pyMPI-2.6a1/pyMPI_reductions.c:51-136 | with distinct handles the function found for a handle is the one registered for it, and an integer that is none is refused |
| RemoteIds.MaxOverIsMax | pynamic-pyMPI-2.6a1/pyMPI_rco.c:473-475 | the reduction yields an upper bound that some member attains |
| RemoteIds.NextCreation | pynamic-pyMPI-2.6a1/pyMPI_rco.c:473-477 | one more creation: its identifier is one above the maximum over its members, and becomes their last_unique |
| RemoteIds.ClockIsLargestId | pynamic-pyMPI-2.6a1/pyMPI_rco.c:473-477 | a process's last_unique is the largest identifier of the creations it took part in |
| RemoteIds.SharedProcessOrders | pynamic-pyMPI-2.6a1/pyMPI_rco.c:473-477 | creations that share a process get increasing identifiers |
| RemoteIds.IdIsLongestChain | pynamic-pyMPI-2.6a1/pyMPI_rco.c:473-477 | the identifier of a creation is exactly the length of the longest chain of creations, each sharing a process with the next, that ends in it |
| RemoteIds.DisjointCreationsCommute | pynamic-pyMPI-2.6a1/pyMPI_rco.c:473-477 | the order of creations on disjoint communicators makes no difference |
| RemoteIds.IdsUniqueIff | pynamic-pyMPI-2.6a1/pyMPI_rco.c:470-477 | the identifiers of a history, called unique in the code, all differ if and only if every creation shares a process with the one listed before it |
| RemoteIds.DisjointIdsCoincide | pynamic-pyMPI-2.6a1/pyMPI_rco.c:470-477 | an input that fails: first creations on disjoint communicators get the same identifier |
| RemoteObjects.RemoteModule.RemoteInit | pynamic-pyMPI-2.6a1/pyMPI_rco.c:470-498 | the identifier is that of RemoteIds for the creations so far, and becomes the process's last_unique there; a receiving object is appended together with its request |
| RemoteObjects.RemoteModule.SweepSends | pynamic-pyMPI-2.6a1/pyMPI_rco.c:346-361 | the in-place deletion leaves exactly the not-ready sends, in order |
| RemoteObjects.NotReadyKeeps | pynamic-pyMPI-2.6a1/pyMPI_rco.c:350-361 | each not-ready request is left as often as it was there, and no ready one is |
| RemoteObjects.SweepDropsAllIsends | pynamic-pyMPI-2.6a1/pyMPI_rco.c:353-358 | the requests that isend makes always test true, so the sweep drops them all, finished or not |
| RemoteObjects.ServeAllExact | pynamic-pyMPI-2.6a1/pyMPI_rco.c:369-396 | a pass dispatches exactly the ready requests, each once, in order and to the object that posted it, puts a new request of the same object in its place, and leaves what the called methods create for the next pass |
| RemoteObjects.ServeAllCache | pynamic-pyMPI-2.6a1/pyMPI_rco.c:369-396 | after a pass the objects are those from before, at the same places, and then all that the called methods created, in order |
| RemoteObjects.RemoteModule.Housekeeping | pynamic-pyMPI-2.6a1/pyMPI_rco.c:331-406 | the in-place loops do exactly that |
| RemoteObjects.DispatchedExactlyOnce | pynamic-pyMPI-2.6a1/pyMPI_rco.c:369-396 | after any run of creations and passes: request i was posted by object i, no request was dispatched twice or still waits after its dispatch, each went to the object that posted it, none is lost |
| RemoteRouting.RightfulIff | pynamic-pyMPI-2.6a1/pyMPI_rco.c:369-396 | with messages matched to the oldest request posted for their communicator and tag, every call in every run is made on the object the message is for if and only if no two receiving objects of the process share communicator and tag |
| RemoteRouting.NothingLost | pynamic-pyMPI-2.6a1/pyMPI_rco.c:369-396 | in every state of every run: an object has exactly one request waiting or matched, or its method is running and it posts again; a message that arrived is delivered, matched or unexpected, never lost or doubled, and unexpected only while no request would take it |
| RemoteRouting.Misdirected | pynamic-pyMPI-2.6a1/pyMPI_rco.c:617-628 | a run that fails: of two objects that do, the younger is sent a message |
| Naming.NamesAreDistinct | pynamic-pyMPI-2.6a1/so_generator.py:98-104 | for every padding length, different functions of the whole program have different names |
| Generator.CreateFunctionList | pynamic-pyMPI-2.6a1/so_generator.py:334-346 | as many signatures as asked for, each with at most five arguments |
| Generator.WriteFunctionCall | pynamic-pyMPI-2.6a1/so_generator.py:39-54 | a call passes the declared number of arguments, each literal fitting its type |
| Generator.WriteFunction | pynamic-pyMPI-2.6a1/so_generator.py:122-170 | function i calls function i+1 unless it is last or at the end of a block, and in a module some utility function in its loop; when it raises |
| Generator.WriteEntry | pynamic-pyMPI-2.6a1/so_generator.py:172-187 | the entry calls exactly the functions at multiples of the call depth, and the previous module's extern function |
| Generator.GenerateCFile | pynamic-pyMPI-2.6a1/so_generator.py:57-213 | the file written has that call structure; it raises for a call depth of zero exactly when a remainder is taken, and otherwise only for an empty utility file |
| Generator.CallsAreWellFormed | pynamic-pyMPI-2.6a1/so_generator.py:98-187 | every call written names exactly one declared function and conforms to its declaration |
| CallGraph.UtilityExecutes | pynamic-pyMPI-2.6a1/so_generator.py:156-167 | executing a utility function terminates and visits its chain |
| CallGraph.ModuleExecutes | pynamic-pyMPI-2.6a1/so_generator.py:145-167 | executing a module function terminates, visits its chain of module functions, and utility calls add at most d frames |
| CallGraph.EntryVisitsEachOnce | pynamic-pyMPI-2.6a1/so_generator.py:172-187 | for every d >= 1: executing the entry terminates, starts functions 0..n-1 once each in order, function i with i mod d + 1 module frames, and never more than 2d frames |
| CallGraph.EntryOnceIff | pynamic-pyMPI-2.6a1/so_generator.py:163-182 | for every call depth but zero: each function is started exactly once in order if and only if d >= 1 or n <= -d |
| CallGraph.GenerateProgram | pynamic-pyMPI-2.6a1/so_generator.py:349-401 | the main loop produces programs of the form that these theorems are about, with as many files as asked for, between half and one and a half times the average number of functions in each, and utilities and extern functions exactly if asked for; it succeeds for d other than zero if utility files are not empty |
| Communicators.SliceSizeExact | pynamic-pyMPI-2.6a1/pyMPI_comm.c:449-453 | the size formula under C division is the length of the range, except that it is negative exactly when start is at least 2*step-1 beyond stop |
| Communicators.RangeAt | pynamic-pyMPI-2.6a1/pyMPI_comm.c:459-460 | element i is start + i*step and lies between the bounds, stop excluded |
| Communicators.RangeComplete | pynamic-pyMPI-2.6a1/pyMPI_comm.c:449-463 | the element after the last would reach the bound |
| Communicators.CommSlice | pynamic-pyMPI-2.6a1/pyMPI_comm.c:446-463 | the list is the range; a zero step, and bounds that far apart, raise |
| Communicators.NoLongerThanRange | pynamic-pyMPI-2.6a1/pyMPI_comm_misc.c:138-143 | the pigeonhole principle: the length check never refuses an acceptable list |
| Communicators.Check | pynamic-pyMPI-2.6a1/pyMPI_comm_misc.c:185-205 | accepts exactly the lists in range and without duplicates, and otherwise names the first bad rank and what is wrong with it |
| Communicators.MiscCreate | pynamic-pyMPI-2.6a1/pyMPI_comm_misc.c:114-205 | a non-empty list is accepted if and only if its stored elements are in range and duplicate-free; what each other argument and each refusal means |
| Communicators.AcceptableAsGiven | pynamic-pyMPI-2.6a1/pyMPI_comm_misc.c:143-149 | for elements that fit an int that is a property of the list as given |
| Communicators.AcceptedVersusGiven | pynamic-pyMPI-2.6a1/pyMPI_comm_misc.c:143-205 | every list that is good as given is accepted, and an accepted list is good as given if and only if all its elements fit a C int |
| Communicators.LargeRankAccepted | pynamic-pyMPI-2.6a1/pyMPI_comm_misc.c:146-149 | an input that fails: 2^32 is stored, and accepted, as rank 0 |
| Communicators.SlicesAreAcceptable | pynamic-pyMPI-2.6a1/pyMPI_comm.c:447-463 | every slice between bounds inside the communicator, with either sign of step, is a list that comm_create accepts |

## Left out

- Streams.Disciplined: runs are restricted to unfinished receives that do not clash, because the pairing is false without that; ClashCorrupts shows it.
- Streams.Step: an `irecv` of the empty string completes here; that it faults is the subject of Requests.
- Buffers.SendRecv: MPI_Sendrecv is a send followed by a receive, with buffered sends; two large bodies exchanged with rendezvous sends could block and are not modelled.
- Requests.Event: `cancel` is not an event; after a successful MPI_Cancel the code goes on to read a header that was never received.
- Buffers.PyMpiRecv: one stream only; which stream a wildcard selects, and that nothing else is matched, is proved in Streams.
- Gathering.GatherRoot: requires that the bodies together fit an int, as the C total does; each body's MPI transfer is one step, and a rank whose list is too short raises before taking part, leaving the others waiting, which is not modelled.
- Gathering.AllGather: the case in which gathering fails on rank 0 and None is broadcast is not modelled.
- Communicators.CommSlice: the overflow of Py_ssize_t for steps near its limits is not modelled; resolving the bounds of a Python slice is CPython's and not part of this model.
- TreeReduction.TreeReduceCorrect: masks and ranks are unbounded, so sizes beyond 2^30, where the C shift or sum overflows, are not told apart; an operator that raises in mid-tree is not modelled.
- RemoteIds.IdOf: the C long does not overflow.
- RemoteRouting.Step: a message for an object that does not receive on this process is not modelled; it reaches whichever object shares its communicator and tag, if any.
- RemoteObjects.Serve: matching is an oracle here, and the subject of RemoteRouting; a called method may create receiving objects; that it may also post sends, or raise and end the pass, is not modelled.
- Generator.GenerateCFile: the text of the files beyond declared names, signatures and calls; the sizes of Python 3's non-integral bounds for random numbers.
- Reductions.OperatorsAssociateAndCommute: on integers; Python applies the same operators to floats, whose sums and products do not associate.
- Collectives.Scan: the receive of each other rank is that of Buffers, for the one message that it is sent.
- Reductions.LogicalReductions: LAND, LOR and LXOR on integers only; the bitwise operators are not modelled.
- RequestLists.TestSome: a request that occurs twice in a list is two requests here; the loops of waitany, waitsome and testany poll in the same way and are left out, and testall never returns anything.
- The broadcast that ends an allreduce: it is the bcast of Buffers, applied to the root's result.
- Errors other than the ones named, and Python reference counts.
- Arrays of numpy, numarray and Numeric, and reductions of a given native type: they belong to libraries that are not part of this model.
- Polling and waiting on send requests, and the chain of abandoned sends, which is never drained.
- partial_message with a slice, whose loop ends only if the step divides the distance.
- barrier, abort, Cartesian communicators, files, signals, the interpreter's start and end, and the driver, build scripts and benchmarks of Pynamic.
