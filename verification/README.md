# NCTUns kernels: a verified model

A Dafny 4.11 model of five stateful kernels of the NCTUns 6.0 network simulator and of the RTP library
that ships with it, with proofs of what each one keeps. `dafny verify dfyconfig.toml` checks everything.

Each kernel is modelled twice. Code that changes state step by step is a class or an array method with
loops; its contract says that the new state is a function of the old one. The functions form a
specification on values, and the properties are lemmas about it: over every input, every run, every
interleaving.

| file | what it models |
|---|---|
| MbQueue.dfy, Binder.dfy | the bounded, priority-ordered queue of a module binder: on values, and as linked cells with head and tail pointers |
| Pipeline.dfy, Poller.dfy | the flow-control protocol of a chain of modules, and the poller that serves their binders |
| Heap.dfy, Scheduler.dfy, Simulation.dfy | the event heap, its insertion and removal in place, and runs of the event loop over heap and timer list |
| Md5.dfy, Md5Context.dfy | sections 3.1 to 3.4 of RFC 1321 as a specification, and the streaming context that refines it |
| RtpSource.dfy, RtpReport.dfy, RtpJitter.dfy | per-source receiver statistics: appendices A.1, A.3 and A.8 of RFC 3550 |
| RtcpInterval.dfy, RtcpTimers.dfy | the transmission interval (section 6.3.1 of RFC 3550) and the re-entrant timer queue |
| ReportRing.dfy, Sdes.dfy, Compound.dfy | what a session sends: round-robin report blocks, source descriptions, and the whole packet and its length against its buffer |
| Common.dfy | optional values, bytes and division, as the other modules use them |
| RtcpWire.dfy, SdesReceiver.dfy, RtcpReader.dfy | what it makes of a received packet: the header check, the reading of source descriptions, and the loop over the packet |
| PacketBuffer.dfy, SharedBuffers.dfy | a packet's private data, and the reference-counted buffer that its copies share |

## What the proofs found

Where the code and its comments, or the standard it follows, disagree, the model follows the code. Each
statement below is followed by the member that proves it.

- Heap: the `>=` at heap.cc:176 takes the right child on every tie in time, so the priority test at
  heap.cc:180 never decides. A removal keeps the order by time always (`Heap.DequeueKeepsOrder`), and the
  order by time and priority exactly when the ties on the way down are fair (`Heap.FullOrderKeptIff`; a heap
  built by four insertions that loses it: `Heap.TieLosesPriority`). Insertions alone keep the full order
  (`Heap.InsertsKeepFullOrder`).
- Pipeline: delivery is in order on every run exactly when all binders have one slot, the default
  (`Pipeline.InOrderIffOneSlot`): `put` offers a packet to the neighbour before looking at its own queue, so
  a longer binder is overtaken. The "Queue is full" exit of `put` is reached exactly when its own queue is
  full and the neighbour refuses (`Pipeline.PutAbortsIff`); `get` asks first, so no run from an empty chain
  gets there (`Pipeline.NothingLost`).
- Binder: the tail pointer stays with the last cell, except when a packet arrives at a full queue of at
  least two cells and is above the last but one: then the last cell is evicted, the newcomer lands before
  the end, and the tail still names the evicted cell (`Binder.LastCellIff`, `Binder.MBinder.Enqueue`; an
  instance with two slots: `Binder.TailFallsBehind`). The tail is always null exactly when the head is.
- MD5: the loop test `i + 63 < inputLen` is on 32 bits. Within 63 bytes of 2^32 it can wrap, and the loop
  does not stop at the last whole block: exactly so when `LoopStops` fails (`Md5Context.LoopStopsIff`, an
  instance: `Md5Context.LoopRunsOn`). The other theorems carry that condition, which holds for every input
  of at most 2^32 - 64 bytes.
- Source validation: on probation the comparison with `max_seq + 1` is not wrapped. Two successive packets
  validate a source unless the first is number 65535 (`RtpSource.SuccessorValidatesIff`); then the packet
  after the next one does (`RtpSource.WrapDelaysValidation`). In any stream the validating packet is the
  first that follows its predecessor without wrapping (`RtpSource.ProbationEndsIff`).
- Report blocks: the 24-bit loss is cut off where the comment at rtp_session_inner.c:799 asks for clamping,
  so it is right exactly as long as it fits (`RtpReport.LostIsMissingLessDuplicates`); `last_seq` is only the
  16-bit number, the extended one exactly as long as the stream has not wrapped
  (`RtpReport.LastSeqExtendedIff`; two streams past these bounds: `RtpReport.LongStreamsMisreport`).
  `build_rr` looks at the room only after it has written its first block, so with 8 to 31 bytes left it
  writes past them, unless our own entry comes first (`ReportRing.OverrunsIff`; an instance:
  `Compound.BlockPasses`).
- Packet length: only the texts of a source description are set aside for it, not its header, its sources,
  the two octets of each item or the padding: 4 bytes and 5 to 24 for each member, when texts fit their
  length octet (`Compound.BeyondBounds`). How long a packet gets is a function of the session's list and
  place, of its members and of the kind of report (`Compound.BuildRtcp`). With up to 31 other sources and
  room for a block it passes RTCP_MAX_PKT_SIZE exactly when the room behind their blocks, or the rest of
  the room by 24 if there are more than fit, is less than those bytes (`Compound.FewSourcesPassIff`; without
  room for a block: `Compound.NoRoomPassIff`; for any number of sources: `Compound.PassesIff`). So a packet
  with as many sources as fit that describes four members never fits (`Compound.FullNeverFits`). Two inputs
  that pass: `Compound.TextsPass`, without sources, and `Compound.BlockPasses`.
- Timers: the branch for more than 50 departed members (rtp_session_inner.c:350) repeats the test of the
  branch before it; in `RtcpTimers.Process.ByeExpires` it stands with the assertion that it is not reached.
- Headers are written in the order of a little-endian machine's bit fields, which is the order of RFC 3550
  only for 18 reports (22 with padding) and a length of two equal bytes (`RtcpWire.StandardLayoutIff`).
  Sender and receiver agree with each other (`RtcpWire.HeaderFields`).
- Source descriptions: the count field has five bits; the receiver finds the chunks as written exactly when
  there are at most 31, else their number modulo 32 (`SdesReceiver.ReceiverFindsChunks`; of 32 none is
  found: `SdesReceiver.AllChunksLost`).
- Receiving: the header check answers -30, and `receive_rtcp_pkt` stops at positive errors only
  (rtp_session_api.c:924-927), so every buffer goes on to the reading loop (`RtcpReader.Receive`). That loop
  moves on by the counts of an SR or RR and the length of an SDES or BYE, and stays in place at a packet of
  another type. For every buffer, it finishes exactly when the buffer can be cut into such segments, the
  last of which may reach over its end (`RtcpReader.FinishesIff`), and stays exactly where segments lead to
  another type (`RtcpReader.StaysIff`). Passing the check is not enough (`RtcpReader.StaysAtApp`), even if
  all types are known (`RtcpReader.LongReportStays`), and not needed (`RtcpReader.RejectedIsRead`); nor need
  all types be known (`RtcpReader.CountReachesOver`). Reports, alone or followed by a source description
  within its length field, are read to the end (`RtcpReader.ReportsRead`, `RtcpReader.SentIsRead`).
- Packets: `pkt_seek` below the inline area assumes 94 bytes of data where 92 lie before the end of the
  structure; exactly that clamp breaks "data end at the end of the buffer" (`PacketBuffer.SeekKeepsEndIff`; an
  instance: `PacketBuffer.SeekPassesEnd`).
  `pkt_sdeattach` by the last holder clears the flag but not the pointer (`SharedBuffers.DetachForgetsIff`),
  and `pkt_sprepend` on a buffer that others hold too changes the total length of one packet only
  (`SharedBuffers.LengthsAgreeIff`; an instance: `SharedBuffers.CopyFallsBehind`).

## Model

| member | source | states |
|---|---|---|
| MbQueue.SpotBounds | NCTUns-6.0/src/nctuns/mbinder.cc:183-186 | The arriving packet stands behind every packet of its level or higher and before the first lower one. |
| MbQueue.VictimIsLowest | NCTUns-6.0/src/nctuns/mbinder.cc:131-136 | The packet singled out for eviction has the lowest level of all and is the last of that level. |
| MbQueue.FullArrival | NCTUns-6.0/src/nctuns/mbinder.cc:128-210 | A call at a full queue leaves the first k of the stable insertion and hands back exactly the one that falls off. |
| MbQueue.ArriveDescends | NCTUns-6.0/src/nctuns/mbinder.cc:110-210 | Every arrival keeps the queue in descending level. |
| MbQueue.ArrivalKeepsPackets | NCTUns-6.0/src/nctuns/mbinder.cc:110-210 | No arrival loses or duplicates a packet: queue and newcomer are the new queue and the packet handed back. |
| MbQueue.SortedIsStable | NCTUns-6.0/src/nctuns/mbinder.cc:178-186 | Repeated insertion is a stable sort by descending level of what arrived. |
| MbQueue.StableSortUnique | NCTUns-6.0/src/nctuns/mbinder.cc:178-186 | A list has only one stable sort, so the reference definition determines the queue. |
| MbQueue.QueueIsTruncatedStableSort | NCTUns-6.0/src/nctuns/mbinder.cc:110-210 | After any arrivals at a binder of capacity k: the first k of their stable sort; drops and packets handed back are both max(0, arrivals - k); nothing is lost. |
| Binder.MBinder.constructor | NCTUns-6.0/src/nctuns/mbinder.cc:56-68 | A new binder is empty, has the given capacity and no drops. |
| Binder.MBinder.Lowest | NCTUns-6.0/src/nctuns/mbinder.cc:130-136 | The scan over the links finds the last cell of lowest level and the cell before it. |
| Binder.MBinder.SwapOut | NCTUns-6.0/src/nctuns/mbinder.cc:151-164 | Relinking takes out exactly that cell; the tail pointer changes only in a queue of one. |
| Binder.MBinder.FindSpot | NCTUns-6.0/src/nctuns/mbinder.cc:183-186 | The scan stops at the first cell of lower level, or at the end. |
| Binder.MBinder.LinkAt | NCTUns-6.0/src/nctuns/mbinder.cc:187-204 | Linking a cell in at a place changes nothing else; the tail follows only at the end. |
| Binder.MBinder.LinkIn | NCTUns-6.0/src/nctuns/mbinder.cc:174-204 | The newcomer is linked before the first lower cell, in the empty queue too. |
| Binder.MBinder.Replace | NCTUns-6.0/src/nctuns/mbinder.cc:128-165 | At a full queue the newcomer is turned away if no cell is lower, else the victim goes; length unchanged. |
| Binder.MBinder.Enqueue | NCTUns-6.0/src/nctuns/mbinder.cc:110-210 | The linked cells and the packet handed back are those of the arrival on values; full calls count a drop; the tail names the newcomer if it is last and is otherwise untouched; a tail that named the last cell still does, except in the case of `LastCellIff`; tail null iff head null. |
| Binder.LastCellIff | NCTUns-6.0/src/nctuns/mbinder.cc:151-202 | After an arrival the last cell is the newcomer or the same as before, unless the queue was full, had at least two cells, and the newcomer is above the last but one. |
| Binder.TailFallsBehind | NCTUns-6.0/src/nctuns/mbinder.cc:151-202 | Three packets at a binder of two slots after which the tail names the packet that was handed back. |
| Binder.MBinder.Serve | NCTUns-6.0/src/nctuns/mbinder.cc:74-107 | An accepted head leaves; a refused one goes back in front and cells, length and order are as before; a tail at the last cell stays there. |
| Binder.ArriveCellsIsArrive | NCTUns-6.0/src/nctuns/mbinder.cc:110-210 | The linked queue refines the queue on values: same packets, same packet handed back. |
| Binder.ArriveAll | NCTUns-6.0/src/nctuns/mbinder.cc:110-210 | A new binder and any arrivals, call by call: the linked queue holds the first k of any stable sort of them, and drops are the rest. |
| Pipeline.PutAbortsIff | NCTUns-6.0/src/nctuns/object.cc:319-383 | `put` reaches its "Queue is full" exit iff its own binder is full and the neighbour refuses. |
| Pipeline.GetTakesIff | NCTUns-6.0/src/nctuns/object.cc:249-315 | `get` takes a packet iff the module's binder has room, and the sink iff it is willing. |
| Pipeline.GetIsSound | NCTUns-6.0/src/nctuns/object.cc:249-315 | `get`, which asks for room first, never lets a queue exceed its capacity nor reaches that exit. |
| Pipeline.GetKeepsPackets | NCTUns-6.0/src/nctuns/object.cc:249-383 | A packet that is taken is delivered or waits in exactly one binder, and no other packet is lost. |
| Pipeline.ServeMovesIff | NCTUns-6.0/src/nctuns/mbinder.cc:74-107 | A binder gets rid of its head iff it has one and the module behind it takes that. |
| Pipeline.ServeKeepsPackets | NCTUns-6.0/src/nctuns/mbinder.cc:74-107 | Serving a binder, whatever the answer, loses and duplicates nothing. |
| Pipeline.NothingLost | NCTUns-6.0/src/nctuns/object.cc:249-383 | For binders of any capacity, on every run of injections and polls against any sink: capacities hold, no abort, and the packets delivered or waiting are exactly those taken in. |
| Pipeline.DeliversInOrder | NCTUns-6.0/src/nctuns/object.cc:249-383 | With one-slot binders, on every run, packets are delivered in order of injection and those waiting are the rest of that order. |
| Pipeline.Overtakes | NCTUns-6.0/src/nctuns/object.cc:338-344 | For every chain with a longer binder there is a run in which a later packet is delivered first. |
| Pipeline.InOrderIffOneSlot | NCTUns-6.0/src/nctuns/mbinder.cc:42-54 | Delivery is in order on every run iff every binder has one slot. |
| Poller.PassDelivers | NCTUns-6.0/src/nctuns/scheduler.cc:189-210 | If the sink is willing, a pass over the occupied binders in any order delivers something. |
| Poller.PassShrinks | NCTUns-6.0/src/nctuns/scheduler.cc:189-210 | Each such pass leaves fewer packets waiting, or none. |
| Poller.PassesEmpty | NCTUns-6.0/src/nctuns/scheduler.cc:189-210 | A pipeline that holds p packets is empty after p passes. |
| Poller.ServeAdvances | NCTUns-6.0/src/nctuns/mbinder.cc:74-107 | Every successful serve shortens the way the waiting packets have left, whatever the sink answers. |
| Poller.IdleMeansEmpty | NCTUns-6.0/src/nctuns/scheduler.cc:197-209 | When a round over the registered binders would serve nothing and the sink is willing, every binder is empty. |
| Poller.IdleMeansBlocked | NCTUns-6.0/src/nctuns/scheduler.cc:197-209 | After a round that served nothing every waiting head but the last module's stands before a full binder, whatever the sink answers. |
| Poller.Node.GetAt | NCTUns-6.0/src/nctuns/object.cc:249-315 | The step of `get` on the state of the node, with its answers 1 and -1. |
| Poller.Node.PutAt | NCTUns-6.0/src/nctuns/object.cc:319-383 | The step of `put`, with the registration of the binder with the poller. |
| Poller.Node.ServeAt | NCTUns-6.0/src/nctuns/mbinder.cc:74-107 | The step of `serve`; a refused head is back in place. |
| Poller.Node.PollAll | NCTUns-6.0/src/nctuns/scheduler.cc:189-210 | The poller's loop ends for every sink, keeps all packets, and stops only when every waiting head but the last module's stands before a full binder; with a willing sink it empties every binder, and with one-slot binders in order. |
| Heap.SiftUpOrders | NCTUns-6.0/src/nctuns/heap.cc:121-145 | The insertion loop restores the heap order, by time and by time and priority. |
| Heap.SiftDownOrders | NCTUns-6.0/src/nctuns/heap.cc:171-195 | The removal loop restores the order by time. |
| Heap.InsertKeepsOrder | NCTUns-6.0/src/nctuns/heap.cc:90-148 | `insertEvent` keeps the order by time, and the full order if the heap has it. |
| Heap.InsertKeepsEvents | NCTUns-6.0/src/nctuns/heap.cc:119-145 | The heap holds the events it held and the new one. |
| Heap.DequeueKeepsOrder | NCTUns-6.0/src/nctuns/heap.cc:151-197 | `dequeueEvent` keeps the order by time. |
| Heap.DequeueKeepsEvents | NCTUns-6.0/src/nctuns/heap.cc:151-197 | The heap loses the event at its root and no other. |
| Heap.RootIsLeast | NCTUns-6.0/src/nctuns/heap.cc:165-167 | The event that leaves is of least time, and of highest priority among those while the full order holds. |
| Heap.PushesLessUrgent | NCTUns-6.0/src/nctuns/heap.cc:123-145 | An insertion moves an event one level down only if the new one is strictly more urgent; behind equals the new one stays. |
| Heap.RootAfterInsert | NCTUns-6.0/src/nctuns/heap.cc:123-145 | The new event is the root iff it is more urgent than the root before. |
| Heap.RootAfterRemoval | NCTUns-6.0/src/nctuns/heap.cc:174-195 | The next root is the left child if strictly earlier, else the right one, unless the last event is more urgent. |
| Heap.FairKeepsFull | NCTUns-6.0/src/nctuns/heap.cc:171-195 | If no tie on the way down hides a higher priority on the left, the full order survives. |
| Heap.UnfairBreaksFull | NCTUns-6.0/src/nctuns/heap.cc:174-194 | If one does, the full order is lost. |
| Heap.FullOrderKeptIff | NCTUns-6.0/src/nctuns/heap.cc:151-197 | A removal keeps the order by time and priority iff the ties on the way down are fair. |
| Heap.InsertsKeepFullOrder | NCTUns-6.0/src/nctuns/heap.cc:90-148 | After any run of insertions the root is the earliest event and of highest priority among the earliest. |
| Heap.TieLosesPriority | NCTUns-6.0/src/nctuns/heap.cc:176-183 | A heap built by four insertions where, after one removal, an event of lower priority leaves before one due at the same time. |
| Scheduler.HeapObject.constructor | NCTUns-6.0/src/nctuns/heap.cc:62-77 | A new heap is empty and has the given capacity. |
| Scheduler.HeapObject.InsertEvent | NCTUns-6.0/src/nctuns/heap.cc:90-148 | The five answers and their order of precedence; only the last changes the heap, to the sifted one, and counts an insertion. |
| Scheduler.HeapObject.SiftUpFrom | NCTUns-6.0/src/nctuns/heap.cc:121-145 | The loop on the array computes the sift. |
| Scheduler.HeapObject.DequeueEvent | NCTUns-6.0/src/nctuns/heap.cc:151-197 | The event returned is of least time, the others remain, the order by time holds and removals are counted; an empty heap is left alone. |
| Scheduler.HeapObject.SiftDownFrom | NCTUns-6.0/src/nctuns/heap.cc:171-195 | The loop on the array computes the sift, its dead priority branch included. |
| Simulation.SetEventKeeps | NCTUns-6.0/src/nctuns/nctuns_api.cc:699-711 | Setting an event keeps everything in `Good`: orders, nothing in the past, limit, conservation. |
| Simulation.SetDoes | NCTUns-6.0/src/nctuns/nctuns_api.cc:699-711 | Which events are accepted, the one due exactly now among them, and what an acceptance adds; a full heap or an event in the past ends the program, one beyond the limit changes nothing. |
| Simulation.ReuseDoes | NCTUns-6.0/src/nctuns/nctuns_api.cc:595-602 | The same for an event used again. |
| Simulation.ScheduleTimerKeeps | NCTUns-6.0/src/nctuns/scheduler.cc:277-313 | So does scheduling a timer. |
| Simulation.TimerDoes | NCTUns-6.0/src/nctuns/scheduler.cc:277-313 | A timer is put into its place in the list unless it lies in the past. |
| Simulation.DequeueHeapKeeps | NCTUns-6.0/src/nctuns/scheduler.cc:477-518 | Executing the heap's root keeps it too, and the exit for a late event is not taken. |
| Simulation.DequeueTimerKeeps | NCTUns-6.0/src/nctuns/scheduler.cc:520-566 | Likewise for the timer list, with a periodic timer put back one period later unless it is flagged for the kernel, a tunnel or the command server. |
| Simulation.StepKeeps | NCTUns-6.0/src/nctuns/scheduler.cc:142-226 | One step of any kind keeps `Good`, and a round of the loop never halts the program. |
| Simulation.RoundExecutes | NCTUns-6.0/src/nctuns/scheduler.cc:158-187 | A round within the limit with something waiting executes exactly one event, none waiting is due earlier, the heap's root or the first timer by time, then priority, then for the heap; the clock becomes its time. |
| Simulation.HeapRound | NCTUns-6.0/src/nctuns/scheduler.cc:477-518 | The heap loses that event and nothing else changes but clock and output. |
| Simulation.TimerRound | NCTUns-6.0/src/nctuns/scheduler.cc:520-566 | The timer list loses its head, which is put in again one period later iff it is periodic and not flagged. |
| Simulation.IdleEnds | NCTUns-6.0/src/nctuns/scheduler.cc:221-224 | With nothing waiting a round sets the clock just past the limit. |
| Simulation.RoundShrinks | NCTUns-6.0/src/nctuns/scheduler.cc:142-226 | Every round leaves less to do within the limit, periodic timers included, or passes it. |
| Simulation.LoopEnds | NCTUns-6.0/src/nctuns/scheduler.cc:142-226 | From every state of every run the loop ends past the limit, and then every accepted event due within it has been executed as often as it was accepted and none waits. |
| Simulation.EveryRun | NCTUns-6.0/src/nctuns/scheduler.cc:142-226 | Over every interleaving: executed times never go back, heap events are within the limit, only the last execution may lie beyond it, and accepted events are exactly those executed or waiting. |
| Simulation.OnceEach | NCTUns-6.0/src/nctuns/heap.cc:105-117 | An accepted event comes out at most as often as it was accepted, exactly so once heap and timer list are empty. |
| Md5.DecodeEncode | NCTUns-6.0/lib/librtp/md5c.c:293-322 | Decoding what was encoded gives the words back. |
| Md5.EncodeDecode | NCTUns-6.0/lib/librtp/md5c.c:293-322 | Encoding what was decoded gives the bytes back, on whole words. |
| Md5.FoldPrefix | NCTUns-6.0/lib/librtp/md5c.c:141-147 | The state after k blocks does not depend on what follows them. |
| Md5.PaddedAsTheStandard | NCTUns-6.0/lib/librtp/md5c.c:171-182 | The padded message is whole blocks: the message, 0x80, the least number of zero bytes that reaches 448 modulo 512 bits, each of them zero, and the 64-bit length, low word first. |
| Md5.InitialAsTheStandard | NCTUns-6.0/lib/librtp/md5c.c:109-112 | The initial words are those of RFC 1321, byte by byte. |
| Md5.DigestAsTheStandard | NCTUns-6.0/lib/librtp/md5c.c:184-185 | The digest is 16 bytes that decode to the four words of the last state, in order. |
| Md5Context.LoopStopsIff | NCTUns-6.0/lib/librtp/md5c.c:146 | The 32-bit loop test ends the loop behind the last whole block iff `LoopStops`. |
| Md5Context.LoopRunsOn | NCTUns-6.0/lib/librtp/md5c.c:146 | An input for which it does not. |
| Md5Context.CountAdds | NCTUns-6.0/lib/librtp/md5c.c:131-134 | The two words with their carry test hold 8 times the total length modulo 2^64. |
| Md5Context.Encode | NCTUns-6.0/lib/librtp/md5c.c:293-306 | The loop writes the words least significant byte first and nothing beyond. |
| Md5Context.Decode | NCTUns-6.0/lib/librtp/md5c.c:312-322 | The loop reads them back. |
| Md5Context.Context.constructor | NCTUns-6.0/lib/librtp/md5c.c:102-113 | A new context stands for the empty message, with the standard's initial state. |
| Md5Context.Context.Count | NCTUns-6.0/lib/librtp/md5c.c:131-134 | The count moves on by the input, both words. |
| Md5Context.Context.FirstBlock | NCTUns-6.0/lib/librtp/md5c.c:141-144 | The buffered bytes completed by the input are the message's next block. |
| Md5Context.Context.WholeBlocks | NCTUns-6.0/lib/librtp/md5c.c:146-147 | The loop hashes exactly the whole blocks of message and input together. |
| Md5Context.Context.Blocks | NCTUns-6.0/lib/librtp/md5c.c:136-151 | The whole blocks of buffered bytes and input together are hashed, and the place where the rest begins is known. |
| Md5Context.Context.Keep | NCTUns-6.0/lib/librtp/md5c.c:149-156 | The buffer holds the bytes past the last whole block. |
| Md5Context.Context.Update | NCTUns-6.0/lib/librtp/md5c.c:119-157 | The context stands for the message with the input behind it: state, buffer and count. |
| Md5Context.Context.Pad | NCTUns-6.0/lib/librtp/md5c.c:171-182 | The two updates of the end make the message the padded one. |
| Md5Context.Context.Final | NCTUns-6.0/lib/librtp/md5c.c:163-191 | The digest is the fold over the padded message, and the context is wiped. |
| Md5Context.HashPieces | NCTUns-6.0/lib/librtp/md5c.c:102-191 | Any message cut in any way into updates gives the digest of the whole, for every compression function. |
| RtpSource.SourceEntry.constructor | NCTUns-6.0/lib/librtp/rtp_member_inner.c:57-93 | A new member is set up for the packet after `max_seq`, one below its first number, and is on probation (the fields are set at lib/librtp/rtp_member_api.c, lines 1013-1015). |
| RtpSource.SourceEntry.InitSeq | NCTUns-6.0/lib/librtp/rtp_member_inner.c:57-70 | All counts start afresh, probation is untouched. |
| RtpSource.SourceEntry.UpdateSeq | NCTUns-6.0/lib/librtp/rtp_member_inner.c:73-132 | The in-place update is the transition that the lemmas below are about. |
| RtpSource.SuccessorValidatesIff | NCTUns-6.0/lib/librtp/rtp_member_inner.c:83-100 | On probation a packet and its successor modulo 2^16 validate the source iff the first is not 65535. |
| RtpSource.WrapDelaysValidation | NCTUns-6.0/lib/librtp/rtp_member_inner.c:83-100 | Of 65535, 0 and 1 in sequence only 1 ends the probation, with one packet counted. |
| RtpSource.ProbationEndsIff | NCTUns-6.0/lib/librtp/rtp_member_inner.c:83-100 | In any stream from a new member, the first packet whose number is one more than that before it, without wrapping, is the one that validates. |
| RtpSource.InitTracks | NCTUns-6.0/lib/librtp/rtp_member_inner.c:86-117 | The end of probation and the packet after a jump, the two ways into `init_seq`, leave a state that tracks the true number and has counted that packet alone. |
| RtpSource.UpdateTracks | NCTUns-6.0/lib/librtp/rtp_member_inner.c:101-132 | A packet at most 99 below or 2999 above the maximum is counted and the state tracks the new maximum, across wraps. |
| RtpSource.AcceptedIff | NCTUns-6.0/lib/librtp/rtp_member_inner.c:101-132 | Within half the number space a packet is accepted iff it is in that window or is the one remembered from a jump; a refused one changes nothing tracked. |
| RtpSource.JumpNeedsTwo | NCTUns-6.0/lib/librtp/rtp_member_inner.c:112-123 | After a refused packet its successor is accepted, and, far off itself, starts the count afresh with itself alone; no other number far off is. |
| RtpSource.StreamTracks | NCTUns-6.0/lib/librtp/rtp_member_inner.c:73-132 | For every such stream `cycles + max_seq` is the running maximum less the offset fixed at `init_seq`, modulo 2^32, and every packet is counted. |
| RtpReport.BuildReportBlock | NCTUns-6.0/lib/librtp/rtp_session_inner.c:777-844 | The in-place computation with its 32-bit words is the report on values. |
| RtpReport.LostIsMissingLessDuplicates | NCTUns-6.0/lib/librtp/rtp_session_inner.c:787-840 | For such a stream at or above its first number, the loss is the numbers never received less the surplus copies, exactly as long as that fits a signed word, and in the block as long as it fits 24 bits. |
| RtpReport.LastSeqExtendedIff | NCTUns-6.0/lib/librtp/rtp_session_inner.c:782-841 | For such a stream the block carries the extended sequence number iff the 16-bit number has not wrapped since `init_seq`. |
| RtpReport.LongStreamsMisreport | NCTUns-6.0/lib/librtp/rtp_session_inner.c:787-841 | Two streams within the window after which a block is wrong: 8391402 packets lost, and a number past 65535. |
| RtpReport.NextIsSound | NCTUns-6.0/lib/librtp/rtp_session_inner.c:805-815 | A packet or a report keeps: more expected in an interval means more received, and the words are the true counts modulo 2^32. |
| RtpReport.EveryHistory | NCTUns-6.0/lib/librtp/rtp_session_inner.c:805-815 | So it is after every interleaving of packets and reports, re-synchronisations included. |
| RtpReport.FractionIsExact | NCTUns-6.0/lib/librtp/rtp_session_inner.c:805-815 | In each of them, while the 32-bit words hold the interval's counts, the fraction is its loss over its expectation in 1/256, and within 0 to 255. |
| RtpJitter.SteppedIs | NCTUns-6.0/lib/librtp/rtp_member_inner.c:290-311 | The double computation, cut off, is an integer average with weight one sixteenth. |
| RtpJitter.ApartIs | NCTUns-6.0/lib/librtp/rtp_member_inner.c:300-310 | The distance of two transit words is the size of their true difference, of either sign, across wraps. |
| RtpJitter.JitterEntry.UpdateJitter | NCTUns-6.0/lib/librtp/rtp_member_inner.c:290-311 | The first packet sets the estimate to 0; each later one moves it by the size of the change in transit. |
| RtpJitter.StaysInRange | NCTUns-6.0/lib/librtp/rtp_member_inner.c:290-311 | Over any run the estimate never exceeds the largest difference seen nor falls 16 below the least. |
| RtpJitter.RestsIff | NCTUns-6.0/lib/librtp/rtp_member_inner.c:290-311 | Under a constant difference d the estimate rests iff it lies in [d - 15, d]. |
| RtpJitter.Converges | NCTUns-6.0/lib/librtp/rtp_member_inner.c:290-311 | From above it reaches exactly d, from below it enters [d - 15, d], in at most as many steps as the distance, never crossing d. |
| RtcpInterval.BandwidthHolds | NCTUns-6.0/lib/librtp/rtp_session_inner.c:96-164 | If all members agree on the counts and the size, their rates by the deterministic intervals sum to at most `rtcp_bw`, in every branch and with the minimum. |
| RtcpInterval.BandwidthUsed | NCTUns-6.0/lib/librtp/rtp_session_inner.c:96-164 | Where the intervals are above the minimum the rates sum to exactly `rtcp_bw`. |
| RtcpInterval.DeterministicIsLeast | NCTUns-6.0/lib/librtp/rtp_session_inner.c:96-164 | The deterministic interval is exactly the larger of the minimum, 2.5 s at first and 5 s later, and what the group's share of the bandwidth needs. |
| RtcpInterval.GroupRate | NCTUns-6.0/lib/librtp/rtp_session_inner.c:121-150 | A group whose interval is long enough for its share of the bandwidth stays within that share. |
| RtcpInterval.IntervalLasts | NCTUns-6.0/lib/librtp/rtp_session_inner.c:96-173 | Every interval, for every random draw, is longer than a second. |
| RtcpInterval.NextTimeBounds | NCTUns-6.0/lib/librtp/rtp_session_inner.c:96-173 | The next time is at least a second after the base, and between half and one and a half of the deterministic interval, over the compensation. |
| RtcpInterval.DoubleToTimevalIs | NCTUns-6.0/lib/librtp/rtp_api.c:187-204 | The conversion is off by less than a microsecond, zero becoming one. |
| RtcpInterval.TimeArithmetic | NCTUns-6.0/lib/librtp/rtp_api.c:230-267 | Addition with carry and comparison are those of the microseconds. |
| RtcpTimers.PutKeepsOrder | NCTUns-6.0/lib/librtp/rtp_session_inner.c:209-242 | Insertion keeps the queue in order of time, ties in order of scheduling. |
| RtcpTimers.DueLead | NCTUns-6.0/lib/librtp/rtp_session_inner.c:1577-1620 | The events due are exactly the leading ones, so looking at the head is enough. |
| RtcpTimers.DuePop | NCTUns-6.0/lib/librtp/rtp_session_inner.c:296-305 | Taking the head takes the first of the due events and leaves the others. |
| RtcpTimers.DuePut | NCTUns-6.0/lib/librtp/rtp_session_inner.c:209-242 | Adding an event that is not due leaves the due ones as they are. |
| RtcpTimers.GoesLate | NCTUns-6.0/lib/librtp/rtp_session_inner.c:429-507 | A session that may send at a moment has waited at least half its deterministic interval, over the compensation, since it last did. |
| RtcpTimers.Process.Link | NCTUns-6.0/lib/librtp/rtp_session_inner.c:209-242 | The scan puts the event behind every one that is not later. |
| RtcpTimers.Process.Schedule | NCTUns-6.0/lib/librtp/rtp_session_inner.c:182-260 | Unknown sessions are refused; otherwise the event is in its place, and unless an error is returned all that is due has expired in order; with nothing due nothing else has changed but the session's next time. |
| RtcpTimers.Process.CheckOnExpire | NCTUns-6.0/lib/librtp/rtp_session_inner.c:1577-1620 | The mutual recursion ends, keeps the order, lets due events expire in order and only those, and without an error leaves none due; what was sent, what waits and whose timing changed is as in `RtpCheckOnExpire`; with nothing due nothing happens. |
| RtcpTimers.Process.OnExpire | NCTUns-6.0/lib/librtp/rtp_session_inner.c:267-527 | Handling the head takes at least one due event away and adds only events that are not due. |
| RtcpTimers.Process.Again | NCTUns-6.0/lib/librtp/rtp_session_inner.c:389-395 | Rescheduling from inside the handling does not change which events expire, nor their order, and the new event waits. |
| RtcpTimers.Process.ByeExpires | NCTUns-6.0/lib/librtp/rtp_session_inner.c:317-398 | A BYE is forgotten without effect if nothing was ever sent. Else `next` is one interval, for some draw, after the last sending: the BYE is sent at once, the last sending being now, iff `next` is not later than now, and else waits at exactly `next`; the branch for many departed members is not reached. |
| RtcpTimers.Process.SendBye | NCTUns-6.0/lib/librtp/rtp_session_inner.c:329-349 | A BYE whose time has come is sent once, now is the time of sending, and it does not wait again. |
| RtcpTimers.Process.WaitLonger | NCTUns-6.0/lib/librtp/rtp_session_inner.c:382-395 | An event that came too early waits at exactly its later time and is not sent in this call. |
| RtcpTimers.Process.SendReport | NCTUns-6.0/lib/librtp/rtp_session_inner.c:429-495 | A report is sent; without an error the last time of sending is now, and the next report waits at one interval from now for some draw; the due events stay as they are. |
| RtcpTimers.Process.ReportExpires | NCTUns-6.0/lib/librtp/rtp_session_inner.c:399-523 | Timer reconsideration: `next` is one interval, for a new draw, after the last sending; the report is sent iff `next` is not later than now, and else waits at exactly `next`, with pmembers brought up to date. |
| RtcpTimers.Process.RtpCheckOnExpire | NCTUns-6.0/lib/librtp/rtp_session_inner.c:1577-1620 | From outside: without an error exactly the due events have expired, in order; nothing due is left; what was added is not due. What was sent were due events, at most one for each session and none before its interval could be over; sessions that sent have done so now, the timing of the others is unchanged; every session has as many reports waiting as before, and every BYE to be said waits or was sent. |
| ReportRing.ReportList.Collect | NCTUns-6.0/lib/librtp/rtp_session_inner.c:953-982 | The shared loop writes blocks for the sources ahead in turn and leaves the session pointing where it stopped. |
| ReportRing.ReportList.Build | NCTUns-6.0/lib/librtp/rtp_session_inner.c:1050-1196 | `build_sr` and `build_rr`: the four answers, the blocks, the room left and the place to go on from. |
| ReportRing.BlocksFit | NCTUns-6.0/lib/librtp/rtp_session_inner.c:1108-1136 | If one block fits: never more than 31 blocks nor more than fit, and the packet is full or the list gone round. |
| ReportRing.OverrunsIff | NCTUns-6.0/lib/librtp/rtp_session_inner.c:1070-1136 | A call writes past its room iff no block fits and the first source is not our own. |
| ReportRing.NoneTwice | NCTUns-6.0/lib/librtp/rtp_session_inner.c:953-982 | No source is reported twice in one call. |
| ReportRing.CallGoesOn | NCTUns-6.0/lib/librtp/rtp_session_inner.c:953-982 | A further call in the same packet reports the sources that follow, up to the packet's start. |
| ReportRing.BuildReports | NCTUns-6.0/lib/librtp/rtp_session_inner.c:953-1136 | All reports of one compound packet, built by the loop at lib/librtp/rtp_session_api.c, lines 588-616, together name the sources ahead in turn, none twice and never our own; all but the last are full; how many places they visit and how much room they leave is known from list, place and room beforehand, and they pass it by less than a block. |
| ReportRing.FurtherReports | NCTUns-6.0/lib/librtp/rtp_session_api.c:588-616 | The loop over further RRs writes what `BlockBytes` and visits what `Visits` says is to come after the first report, and ends. |
| ReportRing.BytesOfCall | NCTUns-6.0/lib/librtp/rtp_session_inner.c:953-982 | What one call writes, and whether another one follows, is told by the number of other sources ahead, the room, and whether two places follow the 31st of them. |
| ReportRing.FewOthers | NCTUns-6.0/lib/librtp/rtp_session_inner.c:953-982 | Up to 31 other sources get one report with as many blocks as there are of them, or as fit. |
| ReportRing.ReachedWithin | NCTUns-6.0/lib/librtp/rtp_session_inner.c:953-982 | A source with m other sources before it is reported within c calls of k blocks if m < c * k. |
| ReportRing.EveryoneReported | NCTUns-6.0/lib/librtp/rtp_session_inner.c:953-982 | Every one of n other sources is reported within ceil(n / k) successive calls, whether or not our own entry is in the list. |
| ReportRing.InPacketsWithin | NCTUns-6.0/lib/librtp/rtp_session_inner.c:953-982 | With packets of any number of reports and of any rooms for k blocks: a source with m others before it is in one of the next c packets if m < c * k. |
| ReportRing.EveryoneInPackets | NCTUns-6.0/lib/librtp/rtp_session_inner.c:953-982 | Every one of n other sources is in one of the next ceil(n / k) packets. |
| RtcpWire.HeaderFields | NCTUns-6.0/lib/librtp/rtp_api.h:140-148 | The header's fields read back what was written, as far as their widths hold it. |
| RtcpWire.StandardLayoutIff | NCTUns-6.0/lib/librtp/rtp_api.h:140-148 | A header as written has the layout of RFC 3550 iff it counts 18 reports (22 with padding) and its length has two equal bytes. |
| RtcpWire.FirstHeaderIff | NCTUns-6.0/lib/librtp/rtp_session_inner.c:1470-1477 | A packet may come first iff its type is 200 or 201 and its header has no padding bit. |
| RtcpWire.CheckHeaders | NCTUns-6.0/lib/librtp/rtp_session_inner.c:1456-1514 | The pointer walk over the buffer answers 0 or -30 by acceptance, for short buffers too. |
| RtcpWire.WalkFollows | NCTUns-6.0/lib/librtp/rtp_session_inner.c:1486-1498 | Over tiled packets the walk goes from header to header and ends at the end. |
| RtcpWire.AcceptedIffTiled | NCTUns-6.0/lib/librtp/rtp_session_inner.c:1456-1514 | A buffer is accepted iff version 2 packets tile its words, the first an SR or RR without padding. |
| Sdes.WriteItems | NCTUns-6.0/lib/librtp/rtp_session_inner.c:645-693 | A chunk's source and exactly the items due in this report, in order of type. |
| Sdes.ItemsAreSaid | NCTUns-6.0/lib/librtp/rtp_session_inner.c:648-693 | The items due are those types with a text whose interval is not zero and divides the number of the report, each once, in ascending order, their text cut to its length modulo 256. |
| Sdes.ChunkAsTheStandard | NCTUns-6.0/lib/librtp/rtp_session_inner.c:645-702 | The bytes of a chunk with one item, as section 6.5 of RFC 3550 lays them out. |
| Sdes.WriteChunk | NCTUns-6.0/lib/librtp/rtp_session_inner.c:645-702 | Behind them one to four octets up to the next word, all of them zero. |
| Sdes.BuildSdes | NCTUns-6.0/lib/librtp/rtp_session_inner.c:577-749 | The packet of all members' chunks behind what was already written, with its header filled in last; an empty list is refused. |
| Compound.GetSdesLen | NCTUns-6.0/lib/librtp/rtp_session_inner.c:1517-1543 | The room set aside is the length of the texts that are due, and nothing else. |
| Compound.BeyondBounds | NCTUns-6.0/lib/librtp/rtp_session_inner.c:577-749 | A source description takes its header and from 5 to 24 bytes for every member beyond that room. |
| Compound.PassesIff | NCTUns-6.0/lib/librtp/rtp_session_api.c:571-624 | A packet passes RTCP_MAX_PKT_SIZE iff the room its blocks leave, a function of list, place, members and kind of report, is less than what the source description takes beyond its reserve. |
| Compound.FewSourcesPassIff | NCTUns-6.0/lib/librtp/rtp_session_api.c:571-624 | With up to 31 other sources and room for a block: iff the room behind their blocks, or the rest by 24 when they do not all fit, is less than that. |
| Compound.NoRoomPassIff | NCTUns-6.0/lib/librtp/rtp_session_api.c:571-624 | Without room for a block: iff another source comes first or the room is less than that. |
| Compound.FullNeverFits | NCTUns-6.0/lib/librtp/rtp_session_api.c:571-624 | With as many sources as fit and four members described, a packet never fits. |
| Compound.TextsPass | NCTUns-6.0/lib/librtp/rtp_session_api.c:578-619 | Six texts of 242 bytes and no source: a packet that passes. |
| Compound.BlockPasses | NCTUns-6.0/lib/librtp/rtp_session_api.c:578-619 | One other source and 20 bytes of room: a packet whose block alone overruns its room. |
| Compound.WriteReport | NCTUns-6.0/lib/librtp/rtp_session_inner.c:883-1043 | The bytes of a report: own part, a block for each source, and the header with count and length. |
| Compound.WriteBody | NCTUns-6.0/lib/librtp/rtp_session_inner.c:883-1043 | The own part and the blocks in order behind the place of the header. |
| Compound.WriteReports | NCTUns-6.0/lib/librtp/rtp_session_api.c:588-616 | The reports one behind the other, as long as planned. |
| Compound.BuildRtcp | NCTUns-6.0/lib/librtp/rtp_session_api.c:571-624 | The whole packet, byte for byte: full reports and a last one of the sources ahead of the session's place in turn, without our own, and the source description behind them; the session is left behind the last place visited; the length is the function of the arguments above; too little room for the reserve is refused without a change; what is built passes the header check and is read to the end. |
| Compound.EveryoneSent | NCTUns-6.0/lib/librtp/rtp_session_api.c:571-624 | Over successive packets, each from the place the one before it left, every one of n other sources is reported within ceil(n / k) of them, whatever else they carry, if each has room for k blocks. |
| SdesReceiver.ReceiveItems | NCTUns-6.0/lib/librtp/rtp_member_api.c:635-673 | The item loop stops at a null octet and drops an item that would reach the end of the packet. |
| SdesReceiver.ReceiveSdes | NCTUns-6.0/lib/librtp/rtp_member_api.c:564-684 | The nested loops read the number of chunks the header says, or report that they were not all there. |
| SdesReceiver.ItemsReadBack | NCTUns-6.0/lib/librtp/rtp_session_inner.c:648-702 | Items written one after the other, with a null octet behind, are read back as they were. |
| SdesReceiver.ChunkReadBack | NCTUns-6.0/lib/librtp/rtp_session_inner.c:635-704 | A chunk written at a word boundary is read back and the next one looked for behind its padding. |
| SdesReceiver.ReceiverFindsChunks | NCTUns-6.0/lib/librtp/rtp_session_inner.c:577-749 | Round trip for any chunks that fit a packet: the receiver finds them as they were, all of them iff there are at most 31. |
| SdesReceiver.AllChunksLost | NCTUns-6.0/lib/librtp/rtp_session_inner.c:703-714 | Of 32 chunks without items the receiver finds none. |
| SdesReceiver.SentIsAccepted | NCTUns-6.0/lib/librtp/rtp_session_inner.c:1456-1514 | Any reports followed by a source description of any chunks that fits its length field pass the header check. |
| RtcpReader.Receive | NCTUns-6.0/lib/librtp/rtp_session_api.c:923-1103 | No buffer is turned away by the check's answer; where the loop over the packet ends, or stays. |
| RtcpReader.FinishesIff | NCTUns-6.0/lib/librtp/rtp_session_api.c:936-1103 | For every buffer: the loop finishes iff segments of known type lead to its end, the last of which may reach over it. |
| RtcpReader.StaysIff | NCTUns-6.0/lib/librtp/rtp_session_api.c:936-1103 | For every buffer and place: the loop stays there iff segments lead to a packet of another type there, and is left with less than a header iff they lead there. |
| RtcpReader.SentIsRead | NCTUns-6.0/lib/librtp/rtp_session_api.c:936-1103 | Any reports followed by a source description that fits its length field are read to the end. |
| RtcpReader.PassedOver | NCTUns-6.0/lib/librtp/rtp_session_api.c:995-1088 | An SDES or BYE of version 2 is passed over by its length, whatever it holds. |
| RtcpReader.ReportsRead | NCTUns-6.0/lib/librtp/rtp_session_api.c:936-1103 | Reports alone pass the check and are read to the end. |
| RtcpReader.StaysAtApp | NCTUns-6.0/lib/librtp/rtp_session_api.c:1090-1102 | A packet that fails the check and one that passes it, at both of which the loop stays at an APP header. |
| RtcpReader.RejectedIsRead | NCTUns-6.0/lib/librtp/rtp_session_api.c:1034-1088 | A BYE alone fails the check and is read to the end. |
| RtcpReader.LongReportStays | NCTUns-6.0/lib/librtp/rtp_session_api.c:971-993 | A lone RR longer than its count passes the check, and the loop stays behind the counted part. |
| RtcpReader.CountReachesOver | NCTUns-6.0/lib/librtp/rtp_session_api.c:971-993 | An RR whose count reaches over the APP packet behind it passes the check and is read to the end. |
| PacketBuffer.SeekKeepsEndIff | NCTUns-6.0/src/nctuns/packet.cc:284-319 | A seek keeps the data at the end of the buffer, and the rest of the total length, iff it does not go below the inline area. |
| PacketBuffer.SeekMoves | NCTUns-6.0/src/nctuns/packet.cc:284-319 | A seek moves the place by the offset, cut off at the ends of the inline area or the cluster. |
| PacketBuffer.SeekPassesEnd | NCTUns-6.0/src/nctuns/packet.cc:305-312 | 88 bytes inline and a seek back by 10, after which the data are said to reach two bytes beyond the end. |
| PacketBuffer.SeekUndoesPrependIff | NCTUns-6.0/src/nctuns/packet.cc:214-319 | Seeking over n bytes just prepended restores place and lengths iff the data moved to a cluster or left two bytes free before. |
| PacketBuffer.Buffer.constructor | NCTUns-6.0/src/nctuns/packet.cc:65-80 | A new packet has no data and ends at the end of its structure. |
| PacketBuffer.Buffer.Migrate | NCTUns-6.0/src/nctuns/packet.cc:219-238 | Moving to a cluster keeps the bytes and puts them at its end. |
| PacketBuffer.Buffer.Malloc | NCTUns-6.0/src/nctuns/packet.cc:214-249 | Room in front of the data, which stay as they are, or the failure when the cluster is used up. |
| PacketBuffer.Buffer.Prepend | NCTUns-6.0/src/nctuns/packet.cc:263-270 | The contents are the new bytes and then the old ones, migration or not. |
| PacketBuffer.Buffer.Seek | NCTUns-6.0/src/nctuns/packet.cc:284-319 | All six clamped cases, and the one that breaks the invariant. |
| PacketBuffer.Buffer.Copy | NCTUns-6.0/src/nctuns/packet.cc:100-122 | A copy has buffers of its own, equal lengths and equal contents. |
| PacketBuffer.PrependAndBack | NCTUns-6.0/src/nctuns/packet.cc:263-319 | Prepending and seeking back restores the earlier contents under the condition above, and not otherwise. |
| PacketBuffer.CopiesAreApart | NCTUns-6.0/src/nctuns/packet.cc:100-122 | What is prepended to a copy or to the original does not show in the other. |
| SharedBuffers.CountsKept | NCTUns-6.0/src/nctuns/packet.cc:128-131 | After any step each live buffer's count is the number of packets flagged as holding it, and not zero. |
| SharedBuffers.StepKeeps | NCTUns-6.0/src/nctuns/packet.cc:392-451 | Every attach, copy, detach, growth and destruction keeps that, no holder has a pointer to a freed buffer, and none is freed twice. |
| SharedBuffers.FreedWhenLastLeaves | NCTUns-6.0/src/nctuns/packet.cc:165-181 | A buffer is freed by a step iff the step takes away its only holder. |
| SharedBuffers.EveryRun | NCTUns-6.0/src/nctuns/packet.cc:165-181 | Over every run from nothing every buffer allocated is live or freed, once; when no packet is left all have been freed. |
| SharedBuffers.DetachForgetsIff | NCTUns-6.0/src/nctuns/packet.cc:401-419 | A packet that detaches forgets the buffer iff others still hold it; otherwise its pointer names the freed one. |
| SharedBuffers.LengthsAgreeIff | NCTUns-6.0/src/nctuns/packet.cc:489-516 | The total lengths count the shared bytes after any step but growth of a buffer that others hold too. |
| SharedBuffers.CopyFallsBehind | NCTUns-6.0/src/nctuns/packet.cc:489-516 | A packet, its copy and one byte put into their buffer: the lengths no longer agree. |
| SharedBuffers.Memory.NewPacket | NCTUns-6.0/src/nctuns/packet.cc:48-80 | A new packet holds nothing. |
| SharedBuffers.Memory.Attach | NCTUns-6.0/src/nctuns/packet.cc:433-451 | A packet that holds nothing gets a new buffer with count 1; one that holds a buffer is left alone. |
| SharedBuffers.Memory.Copy | NCTUns-6.0/src/nctuns/packet.cc:100-131 | The copy holds what the original holds, and the count says so. |
| SharedBuffers.Memory.Detach | NCTUns-6.0/src/nctuns/packet.cc:392-419 | The in-place detach on packet, buffer and list of freed buffers is the step of the state machine. |
| SharedBuffers.Memory.Destroy | NCTUns-6.0/src/nctuns/packet.cc:165-181 | So is the release of a packet's buffer when the packet goes. |
| SharedBuffers.Memory.Grow | NCTUns-6.0/src/nctuns/packet.cc:489-516 | So is the growth of the shared data in place, refused without a buffer or for other data. |

## Left out

- Coordinator and dispatcher processes, the command server, the GUI connection, `Node`: sockets, processes and shell calls.
- RTP sockets and sending, logging, host lookup, random seeds: `rtcp_send` may change the average packet size and `rtp_timeout` the counts of members and senders, whether we are one and the initial mark; both answer as they like; the random draw is arbitrary.
- Binder.MBinder.Serve: leaves out the upcall after a successful `get` and re-entrant enqueues, which are arbitrary module code.
- Modules with flow control disabled. Modules are the base class and `get` answers 1 or -1. The send and the receive direction of `get` and `put` have the same code; the chain models one of them.
- The binder queues inside the chain of modules are sequences: pointers are modelled in Binder.dfy, whose cells are proved to hold the same packets.
- Binder.MBinder.Enqueue: does not model a call at an empty queue of capacity below 1, where the source follows a null pointer.
- The poller serves the binders of one node; which node is polled after an event is not modelled.
- Simulation.DequeueTimerKeeps: the handling of flagged events is not modelled, only that they are not put back.
- Cancelled timers, event tunnels and the descriptors polled in `executeEvent`; events are values, not objects that callouts may change while they wait.
- Simulated times, timestamps and counts of events that wrap around 64 bits, except the heap's two counters.
- `createEvent` and the freeing of events.
- The 64 rounds of `MD5Transform`: the compression step is a parameter of every theorem.
- Md5Context.Context.Update: does not cover inputs outside `LoopStops`, where the source reads beyond them; lengths are below 2^32 as the parameter's type says.
- Md5Context.HashPieces: pieces outside `LoopStops` are left out for the same reason, as in Md5Context.Context.WholeBlocks.
- Conflict and collision handling, member tables and their expiry; a member looked up by its source is assumed to be found.
- RtpReport.FractionIsExact: assumes fewer than 2^32 packets expected and a loss from -2^31 to below 2^23 within one interval; beyond that the 32-bit words do not hold the interval.
- RtpReport.BuildReportBlock: leaves out the block's source, jitter and time fields (`lsr`, `dlsr`); sender reports' NTP and RTP timestamps are left out too.
- RtpJitter.JitterEntry.UpdateJitter: does not cover a change in transit of exactly -2^31, whose negation has no defined result in C.
- Doubles are reals in the interval; the rounding of floating point is not modelled.
- RtcpTimers.Process.ReportExpires: stops where the source enters reverse reconsideration, which can recurse before the member count is brought up to date.
- The clock stands still during one call into the timer queue, and allocation does not fail.
- RtcpInterval.BandwidthHolds: is about the deterministic interval, before randomisation and compensation.
- `build_bye`, whose text is unset without a reason, and the `is_bye` output of the header check, which reads past the buffer.
- Compound.BuildRtcp: is about packets of reports, not of BYE; the buffer must hold the packet, which the source does not ask for; what a report says beside its header is any 24 or 4 bytes and 24 for each source, and the reports are written when all are planned.
- RtcpTimers.Process.SendReport: does not state pmembers, which the timeouts that follow may leave different from the members; after an error of sending it does not state the time of sending.
- ReportRing.EveryoneReported: for a fixed list and room for at least one block in each call; so are the laws over whole packets.
- SdesReceiver.ReceiveSdes: requires the length field to lie within the buffer; beyond it the source reads memory that is not the packet's.
- RtcpReader.Receive: follows the place in the packet; errors of the handlers that end the loop early are left out, and a rest shorter than a header, which the source reads past, is an outcome of its own.
- SdesReceiver.ReceiverFindsChunks: for packets within the 16-bit length field; texts end at their length octet, not at a null byte as `strncpy` would stop.
- The overlay of the cluster pointer and the header fields on the inline bytes of a packet; a packet that uses a cluster is assumed to have one of at least 94 bytes, the default being 1024.
- Packet information records, `pkt_pushproto`, `pkt_popproto`, `pkt_aggregate` and callouts of packets.
- SharedBuffers.Memory.Grow: the bytes of the shared buffer are not modelled, only its length and its holders.
- Geometry, Tcl binding, node type and address tables: simple tables and floating-point formulas.
