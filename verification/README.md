# NebulaX-Trader: verified model of the trading pipeline

This project models, in Dafny 4.11, the data structures and protocols that carry an
event from a market-data packet to an order and back, and proves what they keep.

- **Replay and receive.** `MoldUdp` packs a replay file into MoldUDP64 packets and
  unpacks them again. `ByteRing` is the framed byte ring between receiver and parser
  (its offsets in `Laps`, the object in `SpscRing`): the 10-byte header of a message never
  wraps, its body may, and a tail too short for a header is skipped. `RingProtocol` runs producer and parser as interleaved steps, one
  copied byte and one tail read at a time; `TornReads` says what several tail reads in
  one parser round change, and `TornRun` has a run in which they lose a message.
- **Dispatch.** `Registry` assigns instruments to workers. `Dispatch` has the event
  ring, the retry bucket and one worker's lane; `DispatchProtocol` interleaves
  dispatcher, retry thread and workers call by call, and `DispatchRaces` one access to
  shared state at a time. `BroadcastQueue` and `BroadcastProtocol` are the
  one-producer, many-consumer queue with lazily published progress.
- **Order book.** `OrderPool` is the tagged lock-free free stack as a step system with
  any number of threads, `TagReuse` a run that shows why it is tagged. `OrderMap` is the
  reference index (chains in a node array, a free list, migration of long chains to a
  tree), `PriceLevels` the open-addressing price table with tombstones and a cached extremum, and `OrderBook` the book on top of
  both, compared with a plain ledger. `LevelLists` and `BookLevels` say exactly when the
  level lists, counts and totals are right.
- **Orders, risk, execution.** `Oms` is the order state machine, `Risk` average-cost
  accounting and limits, `Execution` the engine that drives both.
- **Order protocol.** `OuchCodec` has the OUCH-style messages and the two-party
  reference protocol, `Decimal` the text fields, `ReportFraming` the cutting of the TCP
  byte stream into messages. `Bytes` has the big-endian helpers.

Objects the program updates in place are classes here, with arrays and fields updated
by the same loops and branches; each method is proved against a function or predicate on
values, and the main results are lemmas about those values or about whole runs.

Check everything with `dafny verify dfyconfig.toml`.

## Where the code does less than it says

These are results of the model. Where a property fails, a lemma gives the exact condition
under which it holds.

- `parse_available` reads `tail` more than once. A round whose reads saw different tails
  acts like a round on one of them if and only if a stated window was not hit
  (`TornReads.RoundAtomicIffNotTorn`); in that window real data is skipped
  (`TornReads.TornLosesData`). Runs that never hit it parse exactly what was pushed
  (`RingProtocol.ParsedIsPrefixOfPushed`); a run that hits it loses a whole message
  (`TornRun.TornRunLosesMessage`).
- The dispatcher reads a worker's flag and then pushes; the retry thread sees the bucket
  empty and then clears the flag. The order of distinct events is kept if and only if the
  dispatcher never pushes straight to the ring while an earlier event waits in the
  bucket (`DispatchRaces.OrderedIffNoneOvertaken`). Two runs get there: a call that falls between
  check and clear (`DispatchRaces.LateClearReorders`), and a check and clear that fall
  inside a call, which reorder even when check and clear are one step
  (`DispatchRaces.StaleFlagReorders`).
- The packing client never ends on a file whose last message is cut short: it has sent all
  that came before and then repeats a pass that moves nothing (`MoldUdp.Pack`).
- Price level totals: `unlink_and_free` subtracts the original size after
  `dec_level_qty` has already subtracted what was traded. Totals stay right exactly
  under the conditions of `BookLevels.ReduceExactIff`, `RemoveExactIff` and `AddExactIff`.
- `OrderMap::insert` tests the whole tagged word for exhaustion, so a map whose free list
  is empty usually drops the entry silently: `OrderMap.OrderMap.Insert` says exactly when.
- `FILLED` means "nothing remains" only for orders created with a positive quantity
  (`Oms.FilledRuleStep`).
- On an execution report the order manager clamps the quantity and ignores orders that
  are not working, while the risk manager takes the reported quantity, at the order's own
  price. The two agree afterwards exactly when `Execution.Conforms` holds
  (`Execution.AgreeIffConforms`). A fill that arrives while a cancel is pending is one
  that does not conform.
- Setting the initial equity after trading can make the drawdown negative; exactly when is
  `Risk.ResetPeakIff`.
- A token or order book field silently cuts long numbers; round trips hold exactly for
  numbers that fit (`OuchCodec.OrderRoundTripIff`, `OuchCodec.LongIdIsMisread`).
- The comments call the drawdown thresholds latching; the code compares the current
  drawdown each time (risk/risk_manager.h:145-153), and so does the model.

## Model

| member | source | states |
|---|---|---|
| SpscRing.SpscByteRing.Push | core/queue/spsc_byte_ring.h:46-94 | a whole message is appended to the abstract queue exactly when its bytes, and those of the gap before the end if it would wrap, are free, and certainly when 2 * length - 1 bytes are; else nothing changes; the new tail skips the gap |
| SpscRing.SpscByteRing.ReadAcquire | core/queue/spsc_byte_ring.h:99-113 | up to the requested bytes, never across the physical end, and they are the live bytes at the head |
| SpscRing.SpscByteRing.RawRound | market/pipeline/byte_ring_parser.h:99-154 | one parser round on arbitrary ring contents: wait, skip a gap or a bad prefix, or emit a message |
| SpscRing.SpscByteRing.ParseRound | market/pipeline/byte_ring_parser.h:99-154 | on a ring filled by Push a round waits exactly when the queue is empty and emits exactly the queue's first message |
| SpscRing.SpscByteRing.ParseAvailable | market/pipeline/byte_ring_parser.h:99-155 | the loop ends, hands on every queued message in order, and leaves the ring empty |
| ByteRing.RoundIsQueue | market/pipeline/byte_ring_parser.h:101-152 | with one tail snapshot a parser round on bytes is a step of a message queue, across wraps and gaps |
| ByteRing.AfterRound | market/pipeline/byte_ring_parser.h:101-152 | after a round the remaining queue is still laid out from the new head |
| ByteRing.WroteMessage | core/queue/spsc_byte_ring.h:55-94 | an admitted write adds exactly its message to the layout and stays within one capacity of the head |
| ByteRing.AdmittedIff | core/queue/spsc_byte_ring.h:55-71 | a length is admitted if and only if it and the gap it may need fit in what is free |
| ByteRing.AdmittedEverywhereIff | core/queue/spsc_byte_ring.h:55-71 | with a given number of bytes in use a length is admitted at every counter position if and only if 2 * length - 1 bytes are free |
| ByteRing.DrainedRingAccepts | core/queue/spsc_byte_ring.h:55-71 | a drained ring accepts a length at every counter position if and only if capacity >= 2 * length - 1 |
| ByteRing.EveryMessageFits512 | core/queue/spsc_byte_ring.h:55-71 | 512 bytes are enough for every legal message in every drained state |
| TornReads.RoundAtomicIffNotTorn | market/pipeline/byte_ring_parser.h:107-145 | repeated tail reads act like a single one if and only if the torn window was not hit |
| TornReads.TornLosesData | market/pipeline/byte_ring_parser.h:107-121 | a torn round skips over a message that was pushed |
| RingProtocol.ParsedIsPrefixOfPushed | market/pipeline/byte_ring_parser.h:99-155 | in every interleaving of byte copies, publications, single tail reads and parser rounds, as long as no round is torn, what was parsed is a prefix of what was pushed, byte for byte |
| RingProtocol.ThreeReads | market/pipeline/byte_ring_parser.h:107-119 | three tail reads, taken with other steps in between and not torn, give a round that is right for the queue |
| RingProtocol.WaitMeansDrained | market/pipeline/byte_ring_parser.h:101-124 | in such a run a round on fresh readings waits if and only if everything pushed was parsed |
| RingProtocol.NeverWedged | core/queue/spsc_byte_ring.h:55-71 | in every state of such a run in which the producer is idle and 2 * length - 1 bytes are free the message can be pushed |
| TornRun.TornSkip | market/pipeline/byte_ring_parser.h:107-121 | steps of producer and parser that reach a torn round over a message laid out whole; the round drains the ring without parsing it |
| TornRun.TornRunLosesMessage | market/pipeline/byte_ring_parser.h:107-121 | a run in which two messages are pushed and the first one parsed is the second |
| MoldUdp.Feed | market/pipeline/mold_udp_unpacker.h:46-88 | the nested loops push exactly the messages the packet format describes, for any bytes |
| MoldUdp.FeedPacket | market/pipeline/mold_udp_unpacker.h:57-84 | the inner loop takes the message blocks of one packet, numbered from the packet's sequence number |
| MoldUdp.UnpackGivesMessages | market/pipeline/mold_udp_unpacker.h:57-77 | whatever arrives, everything pushed is a well-formed ring message |
| MoldUdp.FillPacket | benchmark/main.cpp:266-288 | one packet takes a prefix of the messages still to be sent, at most the chosen number; it makes progress until the reading stops, and where it stops it takes nothing and stays |
| MoldUdp.Pack | benchmark/main.cpp:258-332 | the packing loop sends exactly the packets that cut the file's kept messages at the chosen sizes, and gets stuck exactly on a file whose last message is cut short |
| MoldUdp.UnpackPacket | market/pipeline/mold_udp_unpacker.h:52-86 | a packet anywhere in a stream yields its numbered messages and unpacking goes on right after it |
| MoldUdp.DamagedPacket | market/pipeline/mold_udp_unpacker.h:57-86 | a packet that announces more messages than can be read gives those before the bad block, and unpacking goes on at the bad block |
| MoldUdp.PacketCounts | benchmark/main.cpp:258-332 | every packet but the last announces exactly the size chosen for it |
| MoldUdp.StreamRoundTrip | benchmark/main.cpp:258-332 | packing then unpacking is the identity for any packet sizes, with sequence numbers 0, 1, 2, ... |
| MoldUdp.DatagramRoundTrip | market/pipeline/mold_udp_unpacker.h:46-88 | the same when each packet is fed on its own |
| MoldUdp.ScanWhole | benchmark/main.cpp:267-283 | a file of whole messages is read as exactly those that are not stock directory messages |
| MoldUdp.FileToParser | benchmark/main.cpp:258-332 | end to end, message i of the file reaches the parser as number i with its own body |
| MoldUdp.MessageParses | market/pipeline/byte_ring_parser.h:112-130 | a pushed message is read back as its sequence number and body |
| Registry.ArgMin | core/dispatch/dispatcher.h:57-62 | the first worker with the least registrations |
| Registry.NewGoesToLeastLoaded | core/dispatch/dispatcher.h:57-67 | a new instrument goes to a worker that no other owns fewer than |
| Registry.StepBalanced | core/dispatch/dispatcher.h:47-70 | a registration keeps every owner and keeps each counter equal to the number of instruments its worker owns, within one of every other |
| Registry.RunBalanced | core/dispatch/dispatcher.h:47-70 | over every run of lookups an owner never changes and the balance holds |
| Registry.FromZero | core/dispatch/dispatcher.h:37-70 | from zero counts, after any run exactly the looked-up locates are owned, and any two workers own numbers of them that differ by at most one |
| Registry.OwnersDiffer | core/dispatch/dispatcher.h:47-70 | while the balance holds any two workers own numbers of instruments that differ by at most one |
| Registry.OwnerTable.LookupOrRegister | core/dispatch/dispatcher.h:47-70 | a known instrument keeps its owner and nothing changes; a new one goes to a worker that no other owns fewer than, and only its counter rises |
| Dispatch.SpscEventRing.Push | core/queue/spsc_event_ring.h:49-57 | appends unless full |
| Dispatch.SpscEventRing.Pop | core/queue/spsc_event_ring.h:61-67 | takes the oldest event, if any |
| Dispatch.SpscEventRing.Peek | core/queue/spsc_event_ring.h:69-74 | shows the oldest event and leaves it |
| Dispatch.SpscEventRing.Pending | core/queue/spsc_event_ring.h:39-41 | the number of queued events |
| Dispatch.Lane.Dispatch | core/dispatch/dispatcher.h:74-93 | an event is appended to ring-then-bucket order; it bypasses the bucket exactly when the flag is down and the ring has room |
| Dispatch.Lane.RetryPass | main.cpp:568-579 | a pass keeps the order, stops only with the bucket empty or the ring full, and clears the flag once the bucket is empty |
| DispatchProtocol.WorkerOrder | main.cpp:568-579 | with a dispatch call and the check with its clear as single steps, in every reachable state consumed ++ ring ++ bucket (less a head already moved) is the worker's events in dispatch order, and a lowered flag means an empty bucket |
| DispatchProtocol.LaneKeeps | core/dispatch/dispatcher.h:74-93 | every whole dispatch call, move, take, pop and check-with-clear step keeps order and flag rule |
| DispatchProtocol.DrainEnabled | main.cpp:568-576 | while an event is undelivered some move, take or pop is possible |
| DispatchProtocol.DrainReducesWork | main.cpp:568-576 | each such step lowers the work left, and 2 * bucket + ring never grows |
| DispatchProtocol.DrainsCompletely | main.cpp:560-579 | once dispatch has ended a lane drains in boundedly many steps, and where no step is left everything sent was consumed in order |
| DispatchRaces.StepLine | core/dispatch/dispatcher.h:82-92 | every single access keeps the line of events, appends to it, or slips the event in before the waiting ones |
| DispatchRaces.OvertakingInverts | core/dispatch/dispatcher.h:88-88 | a direct push past a waiting event puts a later event before an earlier one |
| DispatchRaces.InversionStays | core/dispatch/dispatcher.h:82-92 | no later step undoes an inversion |
| DispatchRaces.OrderedIffNoneOvertaken | core/dispatch/dispatcher.h:82-92 | at the end of any run of single accesses with distinct events the worker gets them in dispatch order if and only if no direct push passed a waiting event |
| DispatchRaces.LateClearReorders | main.cpp:577-578 | a run from empty queues, dispatch calls undisturbed, in which a call between check and clear makes the worker consume a later event first |
| DispatchRaces.StaleFlagReorders | core/dispatch/dispatcher.h:82-86 | a run from empty queues, every clear right after its check, in which a flag read before the clear has the same effect |
| BroadcastQueue.SpmcEventQueue.Push | core/queue/spmc_event_queue.h:93-111 | appends exactly when every consumer's published progress leaves room; a refusal means some consumer has capacity - 63 events unread |
| BroadcastQueue.SpmcEventQueue.Pop | core/queue/spmc_event_queue.h:116-133 | reads the consumer's next event of the log, moves only that consumer, and publishes on catching up |
| BroadcastQueue.SpmcEventQueue.ProgressFlush | core/queue/spmc_event_queue.h:143-151 | publishes the local progress of one consumer |
| BroadcastQueue.SpmcEventQueue.MinConsumed | core/queue/spmc_event_queue.h:165-172 | the least published progress |
| BroadcastQueue.PushKeeps | core/queue/spmc_event_queue.h:94-101 | a write below cached minimum + capacity overwrites no unread event |
| BroadcastQueue.PopKeeps | core/queue/spmc_event_queue.h:125-132 | reading and lazy publication keep cached <= published <= local <= tail <= cached + capacity |
| BroadcastQueue.RescanKeeps | core/queue/spmc_event_queue.h:103-104 | raising the cache to a published minimum is safe |
| BroadcastQueue.NextEvent | core/queue/spmc_event_queue.h:125-126 | the slot a consumer reads holds the next event of the log |
| BroadcastProtocol.EveryConsumerReadsAPrefix | core/queue/spmc_event_queue.h:93-151 | in every interleaving at load/store steps each consumer has read exactly a prefix of the log, and the counters are ordered |
| BroadcastProtocol.ScanSaw | core/queue/spmc_event_queue.h:165-172 | a scanned minimum was some consumer's published progress during that scan |
| BroadcastProtocol.FailedPushMeansFull | core/queue/spmc_event_queue.h:103-110 | a push fails only if some consumer had at least capacity - 63 unread events during its scan |
| OrderPool.InitInv | core/memory/order_pool.h:103-109 | the initial free list is a chain of all slots |
| OrderPool.NextKeeps | core/memory/order_pool.h:36-75 | every load, link read, swap and retry of any thread keeps the partition of slots |
| OrderPool.NoSlotLostOrShared | core/memory/order_pool.h:36-75 | in every reachable state each slot is on one acyclic free chain or has exactly one owner |
| OrderPool.NeverHandedOutTwice | core/memory/order_pool.h:49-52 | a successful swap hands out a slot nobody owned |
| OrderPool.SizeCountsOwned | core/memory/order_pool.h:51-70 | outside the windows between swap and count, size is the number of owned slots |
| OrderPool.NullOnlyIfEmpty | core/memory/order_pool.h:43-56 | null is returned only if all slots were owned at some moment of the call |
| TagReuse.WithoutTagSlotIsShared | core/memory/order_pool.h:45-50 | without a distinguishing tag a run ends with an owned slot at the head of the free chain |
| OrderMap.HashBound | core/memory/order_map.h:223-226 | the multiplicative hash always names a bucket |
| OrderMap.RoundPow2 | core/memory/order_map.h:217-221 | a bucket count not below the capacity that divides the hash word |
| OrderMap.OrderMap.constructor | core/memory/order_map.h:28-47 | an empty map with every node free |
| OrderMap.OrderMap.AllocNode | core/memory/order_map.h:228-245 | the head of the free list, or none |
| OrderMap.OrderMap.FreeNode | core/memory/order_map.h:247-259 | the node becomes the head of the free list |
| OrderMap.OrderMap.Treeify | core/memory/order_map.h:265-279 | the chain is copied to the tree, the bucket is marked, and the abstract map is unchanged |
| OrderMap.OrderMap.Insert | core/memory/order_map.h:61-114 | a fresh key is added to the abstract map exactly when its bucket has moved or is full, a node is free, or the free word tests as exhausted; migration included |
| OrderMap.OrderMap.Find | core/memory/order_map.h:116-135 | the answer of a finite map, in one walk of the chain |
| OrderMap.OrderMap.Erase | core/memory/order_map.h:137-190 | the key leaves the abstract map, at the head, inside a chain or in the tree |
| OrderMap.PushKeeps | core/memory/order_map.h:81-110 | a free node put in front of its chain keeps lists, answers and size |
| OrderMap.EraseKeeps | core/memory/order_map.h:154-185 | unlinking a node and freeing it keeps lists, answers and size |
| OrderMap.MoveKeeps | core/memory/order_map.h:265-279 | migrating a bucket keeps every answer |
| OrderMap.OverflowSet | core/memory/order_map.h:65-70 | adding to a migrated bucket keeps lists, answers and size |
| OrderMap.OverflowCut | core/memory/order_map.h:140-148 | removing from a migrated bucket keeps lists, answers and size |
| OrderMap.NodesPartition | core/memory/order_map.h:228-279 | every node is on exactly one of the free list, the bucket chains and the orphaned chains, once |
| PriceLevels.SearchIsRight | market/book/order_book.h:211-224 | a search that ends at an empty slot or goes all the way round has not missed a price |
| PriceLevels.PutKeeps | market/book/order_book.h:233-236 | inserting at the first tombstone or at the empty slot keeps keys unique and every search path unbroken |
| PriceLevels.BuryKeeps | market/book/order_book.h:246-249 | a tombstone breaks no search path |
| PriceLevels.RehashDone | market/book/order_book.h:294-311 | growing preserves all entries |
| PriceLevels.WorstIsNotLive | market/book/order_book.h:313-320 | the scanned extremum is the true best live price |
| PriceLevels.PriceLevelTable.GetOrInsert | market/book/order_book.h:211-239 | the table is a finite map with a level inserted for a new price; the cached best stays the true extremum |
| PriceLevels.PriceLevelTable.Erase | market/book/order_book.h:243-255 | the price leaves the map and the cached best is right again |
| PriceLevels.PriceLevelTable.Find | market/book/order_book.h:257-265 | the answer of a finite map |
| PriceLevels.PriceLevelTable.BestQty | market/book/order_book.h:273-282 | the total at the best price; with any level live the cached best is live |
| PriceLevels.PriceLevelTable.Grow | market/book/order_book.h:294-311 | the doubled table holds the same map and has an empty slot |
| PriceLevels.PriceLevelTable.ProbeEmpty | market/book/order_book.h:304-304 | the unbounded probe loop ends at the first empty slot |
| PriceLevels.PriceLevelTable.RescanBest | market/book/order_book.h:313-320 | the true best price of the live levels |
| OrderBook.SlotPool.Allocate | core/memory/order_pool.h:36-57 | sequentially, the first free slot or none |
| OrderBook.SlotPool.Deallocate | core/memory/order_pool.h:59-75 | sequentially, the slot becomes the first free one |
| OrderBook.OrderBook.Add | market/book/order_book.h:48-76 | slot, level list, index and ledger after an addition; no change when the pool is exhausted |
| OrderBook.OrderBook.Remove | market/book/order_book.h:79-86 | the order leaves the ledger, its level and the pool |
| OrderBook.OrderBook.Cancel | market/book/order_book.h:88-99 | the ledger entry loses the cancelled shares and goes when none would remain, and the book makes the step that the runs are made of |
| OrderBook.OrderBook.Execute | market/book/order_book.h:102-113 | the same for an execution |
| OrderBook.OrderBook.Replace | market/book/order_book.h:116-124 | the old entry goes and the new one rests, keeping the old sequence number when none is given; the book makes the step of the runs |
| OrderBook.OrderBook.Get | market/book/order_book.h:129-135 | exactly the ledger's entry |
| OrderBook.OrderBook.Drop | market/book/order_book.h:331-345 | unlinking from the level list, level removal and return of the slot |
| OrderBook.OrderBook.UsageIsLive | market/book/order_book.h:159-160 | pool usage and index size equal the number of resting orders |
| OrderBook.AddedLedger | market/book/order_book.h:48-76 | the link surgery of add shows in the ledger as one new entry |
| OrderBook.ReducedLedger | market/book/order_book.h:88-113 | the ledger is right in every safe book, even where level totals are wrong |
| OrderBook.RemovedLedger | market/book/order_book.h:79-86 | removal takes exactly one entry out of the ledger |
| OrderBook.RunIsLedger | market/book/order_book.h:48-124 | over every run with fresh references the book is the ledger and pool usage is its size |
| BookLevels.ReduceExactIff | market/book/order_book.h:88-113 | cancel and execute keep every level's list, count and total exact if and only if something remains |
| BookLevels.RemoveExactIff | market/book/order_book.h:79-86 | remove keeps them exact if and only if the order was unreduced or alone at its level |
| BookLevels.AddExactIff | market/book/order_book.h:48-76 | add keeps them exact if and only if the order has a size and the total fits 32 bits |
| LevelLists.AddHere | market/book/order_book.h:61-72 | the new order is first in its level's list |
| LevelLists.ExhaustBreaks | market/book/order_book.h:331-354 | exhausting an order always leaves its level wrong |
| BookLevels.RunExact | market/book/order_book.h:48-124 | over every run of operations meeting those conditions each level's doubly linked list is well formed, holds exactly its orders, and count and total are right |
| BookLevels.FreshRunExact | market/book/order_book.h:48-124 | the same from a book with nothing resting |
| Oms.StepInv | oms/order_manager.h:38-131 | every event keeps filled + remaining == quantity and both indexes equal to the live orders |
| Oms.MovesAlongArrows | oms/order_manager.h:14-20 | an event changes at most the order it names, along an arrow of the documented diagram |
| Oms.FilledRuleStep | oms/order_manager.h:38-93 | FILLED if and only if nothing remains is kept by an event exactly when it does not create an empty order |
| Oms.RunFilledRule | oms/order_manager.h:38-131 | over every run of orders with positive quantity an order is FILLED exactly when filled == quantity |
| Oms.TerminalAbsorbs | oms/order_manager.h:68-131 | no event changes an order in a final state |
| Oms.StaysFinal | oms/order_manager.h:68-131 | a final state lasts for the rest of any run |
| Oms.AccountsFill | oms/order_manager.h:74-84 | one clamped fill keeps volume, average bounds and the rounding bound |
| Oms.QuotIsTruncated | oms/order_manager.h:84-84 | the division of the average rounds toward zero |
| Oms.RunAccounts | oms/order_manager.h:68-93 | over any run the average lies between the lowest and highest credited price, and traded value minus average times volume is within fills * (quantity - 1), not negative for prices that are not |
| Oms.OrderManager.NewOrder | oms/order_manager.h:38-52 | the next id, a pending entry with nothing filled, listed under its symbol and strategy |
| Oms.OrderManager.OnAccept | oms/order_manager.h:56-64 | a pending order becomes submitted with the given reference; no other entry and no index changes, and in any other status nothing does |
| Oms.OrderManager.OnFill | oms/order_manager.h:68-93 | a working order gains the clamped quantity at the truncated average, becomes FILLED and leaves both indexes when nothing remains, PARTIAL_FILL otherwise; else nothing changes |
| Oms.OrderManager.RequestCancel | oms/order_manager.h:97-106 | true exactly for a working order, which then is PENDING_CANCEL; nothing else changes |
| Oms.OrderManager.OnCancel | oms/order_manager.h:109-119 | true exactly for a pending cancel, which then is CANCELLED and in no set of either index; no other entry changes |
| Oms.OrderManager.OnReject | oms/order_manager.h:122-131 | a pending order becomes REJECTED and is in no set of either index; otherwise nothing changes |
| Oms.OrderManager.OpenOrders | oms/order_manager.h:154-160 | the ids of the symbol's live orders, each once |
| Risk.GapIsRounding | risk/risk_manager.h:124-133 | equity less cash books is realised profit less net cash less cost |
| Risk.BuyGap | risk/risk_manager.h:74-81 | a buy moves that gap by the division's remainder: at most resulting quantity - 1, and not down when prices are not negative |
| Risk.SellGap | risk/risk_manager.h:82-90 | a sale, clamped to the position, does not move the gap |
| Risk.MarkGap | risk/risk_manager.h:118-121 | a mark does not move the gap |
| Risk.StepMoves | risk/risk_manager.h:72-121 | one event changes only its own entry: a fill the quantity, cost and profit, a mark the mark |
| Risk.RunMatchesEvents | risk/risk_manager.h:72-121 | over every run the quantity and the mark of each entry are what the list of events says, the mark being the last one for that entry |
| Risk.EquityIsCashPlusRounding | risk/risk_manager.h:72-162 | over every run of fills and marks, equity differs from cash accounting read off the events (net cash, and the quantities held at the prices last marked, at cost while unmarked) by at most the sum over buys of resulting quantity - 1, is not below it without negative buy prices, and drawdown is never negative |
| Risk.PeakIsHighWater | risk/risk_manager.h:157-162 | the peak is the largest equity the run passed through |
| Risk.ResetPeakIff | risk/risk_manager.h:97-97 | resetting the initial equity leaves no negative drawdown if and only if nothing has been gained |
| Risk.RiskManager.constructor | risk/risk_manager.h:34-43 | flat positions, no marks, default limits |
| Risk.RiskManager.CurrentEquity | risk/risk_manager.h:124-133 | the summing loop computes marked-to-market equity |
| Risk.RiskManager.UpdateEquity | risk/risk_manager.h:157-162 | the peak follows equity up and never down |
| Risk.RiskManager.CheckOrder | risk/risk_manager.h:50-63 | passes exactly when the quantity is not 0, the day's loss and the drawdown are within their limits, a buy stays within the position limit and a sale is covered |
| Risk.RiskManager.OnFill | risk/risk_manager.h:72-92 | a buy adds to the position at the truncated average cost, a sale takes at most the position and books its profit; only that entry changes, and the peak follows |
| Risk.RiskManager.MarkTo | risk/risk_manager.h:118-121 | the entry's mark is the price given, no other mark changes, and the peak rises to the new equity if that is higher |
| Execution.SettledEntry | execution/execution_engine.h:68-94 | an order ends filled whole at its own price or rejected untouched, and no other order changes |
| Execution.SignalMoves | execution/execution_engine.h:46-97 | the order a signal becomes, and that a BUY raises and a SELL lowers exactly its own position by that order's quantity |
| Execution.SubmitKeeps | execution/execution_engine.h:46-97 | a signal keeps positions within 0 and the limit, equal to net filled quantities, and every order finished |
| Execution.NoSenderRun | execution/execution_engine.h:46-97 | the same over every run of signals and marks from a new engine |
| Execution.PositionIsTraded | execution/execution_engine.h:46-97 | over every such run each position is the sum of its filled BUY signals' quantities less its filled SELL signals' |
| Execution.AgreeIffConforms | execution/execution_engine.h:120-124 | after an execution report positions agree with the order manager if and only if the report conforms |
| Execution.QuietReport | execution/execution_engine.h:117-130 | acceptances, cancels and rejections keep the agreement |
| Execution.PlacedKeeps | execution/execution_engine.h:67-87 | placing an order with a sender keeps the agreement, whether it is sent, refused or rejected |
| Execution.PlacedEntry | execution/execution_engine.h:49-87 | with a sender the order of a signal waits for its reports if it passes and goes out, and is rejected otherwise; no position moves |
| Execution.SenderRun | execution/execution_engine.h:46-133 | over every run in which executions conform, positions equal net filled quantities |
| Execution.ExecutionEngine.SubmitSignal | execution/execution_engine.h:46-97 | without a sender: an ignored signal returns 0 and changes nothing; any other adds one order with the signal's side, instrument and price for its share of the base quantity, filled whole with its own position moved by that quantity if the gate passes, else rejected with no position moved |
| Execution.ExecutionEngine.FlattenOnDrawdown | execution/execution_engine.h:215-236 | once, when the drawdown passes the second threshold, exactly the working orders become PENDING_CANCEL and nothing else changes |
| Execution.ExecutionEngine.OnOrderFill | execution/execution_engine.h:102-108 | a known order gains what the order manager can take of the fill, its position moves by what was reported, no other order's terms or quantity change; an unknown order is ignored |
| Execution.ExecutionEngine.OnOrderReport | execution/execution_engine.h:112-133 | for each kind of report the entry it leads to and the position it moves; no other order's terms or quantity change, and unknown orders are ignored |
| Decimal.ZeroPaddedReadsIff | oms/ouch_order_codec.h:301-305 | a fixed-width token reads back as its number if and only if the number fits the width |
| Decimal.SpacePaddedReadsIff | oms/ouch_order_codec.h:101-103 | the same for a left-justified field |
| OuchCodec.OrderRoundTripIff | oms/ouch_order_codec.h:62-109 | an Enter Order message decodes to the same id, symbol, quantity and price if and only if all four fit; side and type come back as the wire can say them |
| OuchCodec.OrderOnWire | oms/ouch_order_codec.h:62-87 | which bytes of an Enter Order message carry which field, and how it is read there |
| OuchCodec.ReportOnWire | oms/ouch_order_codec.h:122-223 | the same for the four reports |
| OuchCodec.CorruptOrderIsRefused | oms/ouch_order_codec.h:91-97 | an order message with any one byte changed is refused |
| OuchCodec.CorruptReportIsRefused | oms/ouch_order_codec.h:161-180 | a report with any one byte changed is refused, unless its first byte became that of a report of another length |
| OuchCodec.ReportDecodes | oms/ouch_order_codec.h:161-193 | any encoded report decodes to its kind, reference, quantity and price, to the learned order if the reference is known and to the token's number otherwise |
| OuchCodec.RefStableAndDistinct | oms/ouch_order_codec.h:310-317 | an order's reference never changes and no two orders share one |
| OuchCodec.EveryReportFindsItsOrder | oms/ouch_order_codec.h:161-193 | for any mix of reports, decoded in any order and any number of times, each finds its own order and that order's one reference |
| OuchCodec.LongIdIsMisread | oms/ouch_order_codec.h:184-184 | before anything is learned a report finds its order if and only if the id fits the token |
| OuchCodec.PutBe32 | oms/ouch_order_codec.h:324-329 | four bytes, most significant first |
| OuchCodec.PutBe64 | oms/ouch_order_codec.h:334-336 | eight bytes, most significant first |
| OuchCodec.ReadBe | oms/ouch_order_codec.h:330-341 | the big-endian value of a field |
| OuchCodec.Checksum | oms/ouch_order_codec.h:319-323 | the byte sum modulo 256 |
| OuchCodec.OrderCodec.EncodeOrder | oms/ouch_order_codec.h:62-87 | writes all 49 bytes of the message and nothing else, or refuses a short buffer |
| OuchCodec.OrderCodec.EncodeAck | oms/ouch_order_codec.h:122-137 | writes the 39-byte acceptance with the order's reference |
| OuchCodec.OrderCodec.EncodeExec | oms/ouch_order_codec.h:140-157 | writes the 42-byte execution |
| OuchCodec.OrderCodec.EncodeCancel | oms/ouch_order_codec.h:196-209 | writes the 39-byte cancel |
| OuchCodec.OrderCodec.EncodeReject | oms/ouch_order_codec.h:212-223 | writes the 36-byte rejection |
| OuchCodec.OrderCodec.RefOf | oms/ouch_order_codec.h:310-317 | the order's reference, assigned at first mention |
| OuchCodec.OrderCodec.DecodeOrder | oms/ouch_order_codec.h:91-109 | the decoded order, or nothing exactly for a short, foreign or wrongly summed message |
| OuchCodec.OrderCodec.DecodeFill | oms/ouch_order_codec.h:161-193 | nothing exactly for a foreign, short or wrongly summed message; else the report's kind, reference and order, and an acceptance, only it, teaches its reference |
| ReportFraming.CutInTwo | main.cpp:598-621 | cutting a stream in two changes neither the frames nor the leftover |
| ReportFraming.ChunkingIsIrrelevant | main.cpp:593-621 | any split of any byte stream into received chunks gives the frames and leftover of one pass |
| ReportFraming.MessagesComeOut | main.cpp:600-621 | whole messages, with bytes that start no message between them, come out as exactly those messages |
| ReportFraming.BooksAreSkipped | main.cpp:612-617 | book messages between reports change nothing about the decoded fills |
| ReportFraming.ReportsSurviveTheStream | main.cpp:593-621 | reports encoded by the exchange, with book messages and noise anywhere between them and received in any chunks, decode to those reports in order |
| ReportFraming.ReportReader.OnReceive | main.cpp:597-621 | one receive appends the chunk, decodes what it completes and keeps the rest |

## Left out

- Threads and memory order: in `RingProtocol`, `TornRun`, `DispatchRaces`, `BroadcastProtocol` and `OrderPool` each atomic load, store and swap of shared state is one interleaved step; weak-memory effects, wakeups, pinning and sockets are not modelled. In `DispatchRaces` a push to or a pop from a lane's ring or bucket is one step, also where an overtaking call and the retry thread push to the same ring.
- DispatchProtocol.WorkerOrder: a dispatch call is one step, and so is the check with its clear; what the steps between them do to the order of events is in DispatchRaces.OrderedIffNoneOvertaken.
- Machine integers: ring and queue counters, order ids, quantities, prices and profits are unbounded, so wrap-around at 2^64 and signed overflow are not modelled; level counts and totals, hashes, wire fields and checksums are modelled at their width.
- Power-of-two capacities: `& (capacity - 1)` is `% capacity`, so nothing depends on the power of two.
- SpscRing.SpscByteRing.Push: takes whole messages of 11 to 210 bytes (or an empty one), as its only caller does; the raw `pop` and the sender's byte-stream use of the ring are not modelled.
- MoldUdp.Pack: the random packet sizes are a parameter; the round trips hold for at most 65535 messages a packet, as the count field does. Sending at a rate and feedback are not modelled.
- DispatchProtocol.DrainsCompletely: workers keep popping; the shutdown order that lets a worker leave early (main.cpp:704-708) is not modelled.
- Dispatch.Lane.Dispatch: one lane as an object; the array of lanes behind one dispatcher is modelled on values, in `DispatchProtocol`. The busy wait for a full bucket is a precondition here and a disabled step there.
- OrderPool.NextKeeps: tags count modulo an arbitrary number, and a thread's copy of the head is assumed less than one whole tag cycle old.
- OrderMap.OrderMap.Insert: sequential, and the key must be fresh; concurrent insert and erase are not modelled because unlinking does not mark nodes. The tree is a finite map.
- OrderMap.OrderMap.constructor: needs a capacity of at least 2, since with one bucket the code shifts a 64-bit word by 64.
- OrderBook.OrderBook.Add: requires a free index node and a fresh reference; without a node the index may drop the order silently.
- OrderBook.OrderBook.Replace: the same, except that the new reference may be the old one.
- PriceLevels.PriceLevelTable.GetOrInsert: prices other than the two marker values that stand for empty and deleted slots.
- OrderBook.SlotPool.Allocate: the pool as one thread sees it; several books sharing one pool and index are not modelled.
- BroadcastQueue.SpmcEventQueue.Push: the cached minimum belongs to the queue, one producer thread per queue.
- Oms.OrderManager.OnFill: submission and update times and the counting queries are not modelled.
- Risk.RiskManager.CheckOrder: reads and fills are not interleaved; limits apply to filled quantities, not to orders in flight.
- Execution.ExecutionEngine.SubmitSignal: the object is the no-sender engine; sending, its failures and cancels that could not be sent are parameters of Execution.Placed and Execution.Flattened. Book queries with timeouts and market-to-limit conversion are not modelled.
- OuchCodec.OrderCodec.EncodeOrder: null buffers are not modelled. Of the cancel request, book query and book messages only the length of a book message is, in the framing.
- ReportFraming.ReportReader.OnReceive: book messages are cut off and give no fill; delivering the fills to the engine is Execution.ExecutionEngine.OnOrderReport.
- Strategies, candles, signal combination and arbitration, ITCH field extraction, configuration, the custom order codec, shared memory and the network back ends are not part of this model.
