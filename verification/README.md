# Proofs for the trading-systems repository

A Dafny model of seven components of the repository, and proofs about it. The code that changes objects in place is
modelled by classes and loops that do the same, each proved against a specification on values; the theorems about
whole runs are then about the specification.

- **Matching (phase 4).** `Orders`, `PriceLevels`, `Matching`, `Books`, `Engine`, `Exchange`, `RunLaws`, `Simulation`.
  Order objects are shared by book and order manager. `Matching` gives the matching loop as a function and shows that
  it is a sweep over the live opposite orders in price-time priority. `Books` proves the map book and the vector book
  against one notion of price levels, `Engine` runs `submit` over either, `Exchange` proves what every run keeps,
  `RunLaws` tells what each command does to a run, on the fields of the orders and the list of commands, and
  `Simulation` ties objects and specification together for whole runs and compares the two books.
- **Robin Hood hash table (hw5).** `RobinHood`. One invariant on a circular array carries insertion with swaps,
  early-exit lookup, backshift erasure and rehashing. The hash function is arbitrary. The load limit, 85 percent
  rounded down, is written `17 * cap / 20`; capacities are powers of two, so the product is never a whole number and
  both roundings agree.
- **Optimized and baseline book (phase 5).** `BookSpec`, `BookLaws`, `BaselineBook`, `SlabPool`, `LevelLists`,
  `OptimizedBook`, `BookParity`. A slab with a free list, an intrusive doubly linked list per price and a slot per id,
  against two plain maps; `BookLaws` reads off the list of operations what either must hold.
- **The challenge protocol (hftprojectstudent).** `Checksum`, `Wire`, `Numerals`, `Client2026`, `FrameDecoding`,
  `ChallengeRun`, `Scoring`. What is sent is described by what a reader of formatted numbers gets from it. From the
  server's serialiser through outbox, sender and byte stream to the client's framing, parser and closed form, as steps
  of three threads; and the server's acceptance of answers and choice of a winner.
- **The hft client.** `Traces`, `TraceKernel`, `HftParser`, `HftIds`, `Handoff`. The packed multiply-add kernel in the
  arithmetic of its registers, AVX2 and AVX-512 being the cases of two and four lanes; what the client makes of the
  bytes of a payload, and for which ids that is the answer; and the two-thread hand-off through one word, every
  interleaving of which answers like one thread alone.
- **Heap and matrix products (hw5, hw2).** `PriorityQueue`, `Matmul`, with `RowMajor` for flat indexing. Entries of a
  product are added up from left to right in all three functions, so they agree term by term, not only up to
  associativity.
- **Shared handles (session 3).** `SharedHandle`. Any number of handles over any number of counted blocks.

Some conventions. Prices and matrix entries of `double` type are reals. Integers are unbounded; where a width matters
it is proved to suffice (`Checksum.ClientFits`, `TraceKernel.TiersFit`) or written out (the unsigned wrap-around in
the parser, saturation and 32-bit wrap-around in the kernel). A pointer into the slab is the index of its cell, -1
for null. A loop that the source writes inside a larger function is a method of its own where its proof is, and a
loop that two functions share, like the probe loop of lookup and erasure, appears once. The engine's template
argument is the datatype `Engine.Book`. The matrix dimension of the protocol and of the hft client is a parameter `n`,
128 in the code.

Where code and comments differ the model follows the code. `prune_front` is described as removing the first dead
order at the best level; it removes every leading dead order, level after level. The winner of a challenge is
described as the fastest correct client; a client whose name is empty wins without being reported
(`Scoring.NamelessWins`). `Scoring.WinnerReported` says exactly when the search finds a winner whatever the order in
which it visits the names: somebody has answered correctly, and the client without a name is not among the fastest.
The hft client reads the challenge id with a parser for at most three digits, while ids count up from 1.
From id 1000 on it starts too early, its worker parses A's text in place of B's, and the answer does not depend on B at
all (`HftIds.LargeIdsIgnoreB`). `HftIds.ExactIds` and `Handoff.EveryTierExact` say exactly when it answers
correctly: for ids below 1000. The theorems about its answers carry that bound on the id of the challenge answered, not
on the run.

## Model

| member | source | states |
|---|---|---|
| PriceLevels.LadderSorted | phase4/include/OrderBook.hpp:98-113 | Any two levels of a side stand strictly in price order, the best first; so a price occurs once and the linear search finds the insertion point. |
| PriceLevels.QueuesDetermineLevels | phase4/include/OrderBook.hpp:10-18 | A sorted side without empty levels is determined by the queue at each price: the map form and the vector form of a side cannot differ if their queues agree. |
| PriceLevels.InsertQueues | phase4/include/OrderBook.hpp:27-30 | A posted order is last in the queue of its own price; the queue at every other price is unchanged. |
| PriceLevels.InsertLadder | phase4/include/OrderBook.hpp:98-113 | Posting keeps the side strictly sorted and free of empty levels. |
| PriceLevels.InsertFlat | phase4/include/OrderBook.hpp:98-113 | Posting splices one order into the priority list and moves nobody else. |
| PriceLevels.PruneLadder | phase4/include/OrderBook.hpp:66-72 | After pruning, the side is still sorted without empty levels, a live order leads it, and the leading price has not improved. |
| Matching.FlatPrune | phase4/include/OrderBook.hpp:130-137 | Pruning drops exactly the leading dead orders of the priority list, across levels, and nothing behind the first live one. |
| Matching.DropDeadMeans | phase4/include/OrderBook.hpp:66-72 | Pruning a queue drops only filled and cancelled orders, up to the first that is New or PartiallyFilled, and leaves the others in place. |
| Matching.QuotesDropDead | phase4/include/OrderBook.hpp:33-36 | Pruning leaves the sequence of live orders unchanged. |
| Matching.QuotesMean | phase4/include/Order.hpp:42-43 | The orders a taker can trade with are exactly those queued that are neither filled nor cancelled, each with its own price and its unfilled quantity. |
| Matching.LoopTurn | phase4/include/MatchingEngine.hpp:27-63 | The matching loop unrolls into its body, and each trade lowers (orders queued opposite, remaining quantity of the taker) lexicographically, so it terminates. |
| Matching.LoopIsSweep | phase4/include/MatchingEngine.hpp:27-63 | The trades emitted are exactly those of a sweep over the live opposite orders, best price first and earliest first, at the makers' prices; and the live orders left are those the sweep leaves. |
| Matching.SweepTotal | phase4/include/MatchingEngine.hpp:27-37 | A sweep over price-ranked quotes executes min(quantity, all units on offer at acceptable prices). |
| Matching.LadderRanked | phase4/include/OrderBook.hpp:14-18 | The live orders of a side, read off level by level, stand in price priority. |
| Matching.LoopTotal | phase4/include/MatchingEngine.hpp:27-63 | The executed total of one submission is min(remaining quantity, live crossing quantity opposite). |
| Matching.LoopTouches | phase4/include/MatchingEngine.hpp:37-43 | A submission changes only `filled` and `state`, and only of the taker and of orders queued opposite. |
| Matching.LoopCredits | phase4/include/MatchingEngine.hpp:34-59 | Every order ends with its fill raised by exactly the units the emitted trades name it for, and with the state that belongs to that fill. |
| Matching.LoopCoherent | phase4/include/MatchingEngine.hpp:40-43 | State and fill of every order stay coherent: New means unfilled, Filled means filled to the quantity, PartiallyFilled strictly in between. |
| Matching.LoopSparesDead | phase4/include/MatchingEngine.hpp:28-31 | An order whose state is Filled or Cancelled is not touched, even if it is still queued. |
| Matching.LoopStrikes | phase4/include/MatchingEngine.hpp:31-58 | Every trade of a run names the taker on its side and, on the other, an order that was queued and New or PartiallyFilled before the run; at that order's price, for no more than it had left, under the taker's symbol and the sequence number given. |
| Matching.LoopPriority | phase4/include/MatchingEngine.hpp:27-63 | When an order trades, every order before it in the priority list that was New or PartiallyFilled is executed in full. |
| Matching.LoopQueues | phase4/include/OrderBook.hpp:66-79 | The queue at each price loses orders from its front only. |
| Matching.LoopNoneFilled | phase4/include/MatchingEngine.hpp:62 | What a run fills it also takes out of the queue. |
| Matching.LoopFair | phase4/include/MatchingEngine.hpp:35-58 | Each trade joins a buyer and a seller at a price inside both limits, for a positive quantity. |
| Matching.LoopLeaves | phase4/include/MatchingEngine.hpp:62 | Only dead orders leave the opposite side, from its front; whoever is live keeps the place it had. |
| Matching.LoopStops | phase4/include/MatchingEngine.hpp:27-32 | The loop stops only when the taker is exhausted or the best price left opposite is not acceptable to it. |
| Books.PruneQueue | phase4/include/OrderBook.hpp:69 | Popping dead orders off one queue leaves the queue from its first live order on. |
| Books.FlatOrderBook.Add | phase4/include/OrderBook.hpp:98-113 | The vector book posts as specified, on its own side only. |
| Books.FlatOrderBook.PruneFront | phase4/include/OrderBook.hpp:130-137 | The vector book prunes as specified, on one side only. |
| Books.FlatOrderBook.PopBest | phase4/include/OrderBook.hpp:123-128 | The vector book drops the best order, and its level when that empties it. |
| Books.BestKey | phase4/include/OrderBook.hpp:42-49 | In a map that represents a side, the best level is the least key in comparator order, and the map is empty exactly when the side is. |
| Books.Begin | phase4/include/OrderBook.hpp:42-49 | `begin()` of the map is the best level of the side. |
| Books.OrderBook.Add | phase4/include/OrderBook.hpp:27-30 | The map book posts as specified: the same abstract side as the vector book. |
| Books.OrderBook.PruneFront | phase4/include/OrderBook.hpp:66-72 | The map book prunes as specified. |
| Books.OrderBook.PopBest | phase4/include/OrderBook.hpp:74-79 | The map book drops the best order, and its key when that empties the queue. |
| Engine.MatchingEngine.Execution | phase4/include/MatchingEngine.hpp:34-60 | One execution on the shared order objects: both fills and states, and the logged trade, are those of the specification. |
| Engine.MatchingEngine.Turn | phase4/include/MatchingEngine.hpp:28-62 | One pass through the loop body, over either book, is one turn of the specification, with the same effect on orders, book and log. |
| Engine.MatchingEngine.Match | phase4/include/MatchingEngine.hpp:27-63 | The loop over the objects computes the specified outcome, for either book. |
| Engine.MatchingEngine.Submit | phase4/include/MatchingEngine.hpp:23-67 | `submit` over the objects: orders, both sides of the book, log and returned count are those of the specification, the remainder posted behind its level. |
| Exchange.StepKeepsInv | phase4/include/MatchingEngine.hpp:23-67 | Placing, submitting, cancelling and reaping keep the invariant: sorted sides without empty levels, an uncrossed book, live orders queued and known to the manager, coherent states, a tape that accounts for every fill. |
| Exchange.SubmitUncrossed | phase4/include/MatchingEngine.hpp:27-65 | After a submission the best bid is below the best ask, cancelled orders that are still queued included. |
| Exchange.NeverCrossed | phase4/include/MatchingEngine.hpp:27-65 | In every reachable state every bid price is strictly below every ask price and no level is empty, dead queued orders included. |
| Exchange.Conservation | phase4/include/MatchingEngine.hpp:34-59 | In every reachable state each fill equals the tape quantities naming the order and once positive does not exceed its quantity, every trade is within both limits, and total bought = total traded = total sold. |
| Exchange.TerminalForever | phase4/include/Order.hpp:43 | From any state a run can reach: an order whose state is Filled or Cancelled keeps all its fields under every later run, and no later trade names it. |
| Exchange.ReapSparesLive | phase4/include/OrderManager.hpp:40-47 | In every reachable state reaping removes exactly the orders whose state is Filled or Cancelled; whoever else rests in the book stays known to the manager. |
| Exchange.SubmissionMeaning | phase4/include/MatchingEngine.hpp:23-67 | In any reachable state: the tape grows by the sweep's trades, the fill is min(quantity, crossing quantity), and a remainder is last at its price, every other queue of that side unchanged. |
| Simulation.OrderManager.Place | phase4/include/OrderManager.hpp:18-23 | A new order gets the next id, enters the registry and is New and unfilled. |
| Simulation.OrderManager.Cancel | phase4/include/OrderManager.hpp:25-31 | Cancelling succeeds exactly for a known order whose state is New or PartiallyFilled, and makes it Cancelled with its fill as it was; otherwise nothing changes. |
| Simulation.OrderManager.CancelTwice | phase4/include/OrderManager.hpp:25-31 | A second cancel of an order returns false, whatever the first did. |
| Simulation.OrderManager.Reap | phase4/include/OrderManager.hpp:40-47 | Exactly the orders whose state is Filled or Cancelled leave the registry, and their number is returned. |
| Simulation.Drive | phase4/src/main.cpp:71-101 | Any legal run of commands on the objects ends in the state the specification gives, whichever book is used: the same fields of every order, the same tape, the same ids in the registry. |
| Simulation.Twins | phase4/include/OrderBook.hpp:85-147 | The same run on both books gives the same tape, the same orders and the same queues at every level. |
| RunLaws.PlaceInRun | phase4/include/OrderManager.hpp:18-23 | One more Place is always possible: the next id holds exactly the symbol, price, quantity and side of the command, New and unfilled; every other order, the books and the tape are unchanged. |
| RunLaws.CancelInRun | phase4/include/OrderManager.hpp:25-31 | One more Cancel is always possible: an order that is New or PartiallyFilled becomes Cancelled with its other fields, the books, the tape and all other orders unchanged; an unknown, filled or cancelled id changes nothing. |
| RunLaws.ReapInRun | phase4/include/OrderManager.hpp:40-47 | One more Reap is always possible: it forgets exactly the filled and the cancelled, and changes nothing else. |
| RunLaws.TermsAreAsked | phase4/include/OrderManager.hpp:18-23 | In every reachable state the ids number the Place commands of the run, and the order under an id has the symbol, price, quantity and side of that command. |
| RunLaws.SubmitAccepted | phase4/src/main.cpp:93-96 | A run can be continued by a Submit exactly if the order was placed, for a positive quantity, is New, and no earlier Submit names it. |
| RunLaws.SubmitInRun | phase4/include/MatchingEngine.hpp:37-43 | A Submit changes fills and states only: no other field of any order, no id, no earlier record of the tape. |
| RunLaws.SubmitStrikes | phase4/include/MatchingEngine.hpp:31-58 | Every trade a Submit adds names the submitted order and an order of the other side that an earlier command submitted, New or PartiallyFilled, at that order's price inside the limit, for no more than it had left, with the submitted order's symbol and the command's sequence number. |
| RunLaws.SubmitExecutes | phase4/include/MatchingEngine.hpp:27-63 | A Submit fills min(quantity, units on offer): the unfilled quantities, added up over all ids, of the submitted orders of the other side that are neither filled nor cancelled and whose price the limit allows. |
| RunLaws.SubmitPriority | phase4/include/MatchingEngine.hpp:27-63 | Price-time priority in every run: when an order trades with a submitted one, each open order of its side with a better price, or the same price and an earlier Submit command, ends Filled. |
| RunLaws.PricesInOrder | phase4/include/OrderBook.hpp:14-18 | In every reachable state bid prices fall strictly from level to level and ask prices rise strictly. |
| RunLaws.TimePriority | phase4/include/OrderBook.hpp:27-30 | In every reachable state the queue at each price is in the order of the Submit commands. |
| RunLaws.OpenOrdersRest | phase4/include/MatchingEngine.hpp:65 | In every reachable state a submitted order that is neither filled nor cancelled rests at its own price on its own side. |
| RunLaws.FilledLeave | phase4/include/MatchingEngine.hpp:62 | In every reachable state no filled order stands in a queue. |
| RunLaws.StatesTellFills | phase4/include/MatchingEngine.hpp:40-43 | In every reachable state: New means unfilled, PartiallyFilled strictly in between, Filled exactly 0 < fill = quantity, and Cancelled never filled in full. |
| RobinHood.MaskIsModulo | hw5/part1_hashtable.cpp:105-106 | Masking with capacity - 1 is reduction modulo a power-of-two capacity. |
| RobinHood.LoadLimit | hw5/part1_hashtable.cpp:52 | The load limit is 0.85 of the capacity rounded down; a count exceeds it exactly if 20 times the count exceeds 17 times the capacity. |
| RobinHood.VacantBehind | hw5/part1_hashtable.cpp:126-130 | Every displacement is at most the distance from any vacant slot behind it. |
| RobinHood.Climb | hw5/part1_hashtable.cpp:126-130 | From an entry's home to the entry every slot is displaced at least as far as a probe for that entry would be there: the fact behind the early exit. |
| RobinHood.SeekStep | hw5/part1_hashtable.cpp:138-144 | Early exit is sound: a slot less displaced than the probe proves the key absent; otherwise the lookup has found it or may go on, and never completes the circle. |
| RobinHood.VacantSlot | hw5/part1_hashtable.cpp:102-103 | A table with fewer keys than slots has a vacant slot, which every probe loop reaches. |
| RobinHood.InsertVacant | hw5/part1_hashtable.cpp:115-119 | Coming to rest in a vacant slot restores the displacement invariant and completes the map update. |
| RobinHood.InsertSame | hw5/part1_hashtable.cpp:120-125 | Meeting the key replaces its value and nothing else. |
| RobinHood.InsertSwap | hw5/part1_hashtable.cpp:126-130 | A swap keeps the displacement invariant, and array plus carried entry still stand for the same map. |
| RobinHood.ShiftStep | hw5/part1_hashtable.cpp:166-168 | Pulling one entry towards home keeps the displacement invariant and the map, and leaves one stale slot further on. |
| RobinHood.ShiftEnd | hw5/part1_hashtable.cpp:162-165 | Before a vacant slot or an entry at home, the stale slot may become vacant: no tombstone is left. |
| RobinHood.RobinHoodMap.RoundPow2 | hw5/part1_hashtable.cpp:55-59 | The least power of two not below the argument. |
| RobinHood.RobinHoodMap.constructor | hw5/part1_hashtable.cpp:92-96 | A new table is empty and well formed; its length is a power of two, at least 8 and at least the argument, and 8 or less than twice the argument. |
| RobinHood.RobinHoodMap.Place | hw5/part1_hashtable.cpp:105-132 | The probe loop of insertion: the model gains exactly the new binding, in the same array. |
| RobinHood.RobinHoodMap.Insert | hw5/part1_hashtable.cpp:101-132 | Insertion equals map update, whether it finds, places, displaces or first rehashes; it doubles the array exactly when the new count would exceed 0.85 of its length. |
| RobinHood.RobinHoodMap.Rehash | hw5/part1_hashtable.cpp:76-89 | Rehashing preserves the map and its size, and no reinsertion triggers another rehash. |
| RobinHood.RobinHoodMap.Locate | hw5/part1_hashtable.cpp:138-144 | The probe loop finds the key exactly when it is present. |
| RobinHood.RobinHoodMap.Find | hw5/part1_hashtable.cpp:134-145 | Lookup returns exactly what the abstract map holds. |
| RobinHood.RobinHoodMap.Backshift | hw5/part1_hashtable.cpp:158-169 | The backshift loop terminates, restores the invariant and loses no entry. |
| RobinHood.RobinHoodMap.Erase | hw5/part1_hashtable.cpp:147-172 | Erasure equals map removal and reports whether the key was there. |
| RobinHood.AfterOpsTold | hw5/part1_hashtable.cpp:101-172 | By scanning the operations: a run leaves a key exactly if it was inserted after any removal, with the value inserted last. |
| RobinHood.Replay | hw5/part1_hashtable.cpp:101-172 | After any run of insertions and erasures, with the rehashes they cause, a lookup finds a key exactly if it was inserted after any removal, with the value inserted last; `size` is the number of such keys. |
| RobinHood.RobinHoodMap.Counted | hw5/part1_hashtable.cpp:98 | `size` is the number of keys. |
| SlabPool.MemoryPool.constructor | phase5/include/MemoryPool.hpp:15-22 | All cells are free, each on the free list once. |
| SlabPool.MemoryPool.Acquire | phase5/include/MemoryPool.hpp:35-42 | Takes the most recently freed cell and no other, or reports null when none is free; a cell is on the free list exactly when it is not alive. |
| SlabPool.MemoryPool.Release | phase5/include/MemoryPool.hpp:44-50 | Returns the cell to the free list; null is ignored. |
| LevelLists.LinkTailLinked | phase5/include/OptimizedOrderBook.hpp:49-54 | Linking behind the tail extends a well-formed doubly linked list by one. |
| LevelLists.SplicedLinked | phase5/include/OptimizedOrderBook.hpp:87-91 | Splicing a node out leaves a well-formed list of the others in order; the node's links name its true neighbours. |
| LevelLists.LevelsPartition | phase5/include/OptimizedOrderBook.hpp:86-98 | A cell is live exactly when some level's list contains it, and only one does: the levels partition the live nodes. |
| LevelLists.LevelWalks | phase5/include/OptimizedOrderBook.hpp:27-30 | No level is empty; the forward walk visits its list and the backward walk its exact reverse, so the lists are acyclic. |
| LevelLists.LinkingWellFormed | phase5/include/OptimizedOrderBook.hpp:48-56 | Adding an order keeps lists, levels and slots well formed. |
| LevelLists.LinkingQueue | phase5/include/OptimizedOrderBook.hpp:48-56 | An added order is last at its price, and no other queue changes. |
| LevelLists.UnlinkingWellFormed | phase5/include/OptimizedOrderBook.hpp:87-93 | Removing an order keeps lists, levels and slots well formed, and erases a level left empty. |
| LevelLists.UnlinkingQueue | phase5/include/OptimizedOrderBook.hpp:87-93 | Only the queue at the order's price changes: it loses that id and keeps its order. |
| LevelLists.LevelsArePrices | phase5/include/OptimizedOrderBook.hpp:84 | `levels` are exactly the prices in use. |
| OptimizedBook.OptimizedOrderBook.PushBack | phase5/include/OptimizedOrderBook.hpp:50-54 | The pointer writes of an append are those of the list specification, with the level's head and tail. |
| OptimizedBook.OptimizedOrderBook.Splice | phase5/include/OptimizedOrderBook.hpp:88-91 | The pointer writes of an unlink are those of the list specification, and move the level's ends where the node had no neighbour. |
| OptimizedBook.OptimizedOrderBook.Unlink | phase5/include/OptimizedOrderBook.hpp:87-93 | Unlinking splices the node out, moves the ends of its level, and erases the level when its head becomes null. |
| OptimizedBook.UnlinkedLevel | phase5/include/OptimizedOrderBook.hpp:87-93 | Those writes are the specified ones: the level keeps the ends of the list of its other orders, and is erased exactly when there are none. |
| OptimizedBook.OptimizedOrderBook.AddOrder | phase5/include/OptimizedOrderBook.hpp:48-56 | Takes the cell on top of the free list, links it and keeps the book valid, with cells in use equal to orders. |
| OptimizedBook.OptimizedOrderBook.Relocate | phase5/include/OptimizedOrderBook.hpp:67-71 | A change of price leaves the state specified by removal and re-insertion, on the same side and in the very cell released: the free list is the same before and after. |
| OptimizedBook.OptimizedOrderBook.ModifyOrder | phase5/include/OptimizedOrderBook.hpp:58-72 | Unknown id: nothing. Same price: the quantity in place. New price: removal and re-insertion. The free list is unchanged in each case. |
| OptimizedBook.OptimizedOrderBook.DeleteOrder | phase5/include/OptimizedOrderBook.hpp:74-80 | Deletes the order if it exists, otherwise changes nothing. |
| BookParity.AddMeans | phase5/include/OptimizedOrderBook.hpp:48-56 | In terms of orders by id, an addition binds the id to the order added and changes no other. |
| BookParity.ModifyMeans | phase5/include/OptimizedOrderBook.hpp:58-72 | A modification of a resting id binds it to the new price and quantity and the side it had, whether edited in place or relocated; of an unknown id, nothing changes. |
| BookParity.DeleteMeans | phase5/include/OptimizedOrderBook.hpp:74-80 | In terms of orders by id, a deletion removes the id and changes no other. |
| BookParity.ModifyInOrder | phase5/include/OptimizedOrderBook.hpp:63-71 | Levels stay in arrival order: a same-price change keeps its place, a change of price arrives anew. |
| BookParity.DeleteInOrder | phase5/include/OptimizedOrderBook.hpp:74-80 | A deletion keeps the arrival order of the others at every level. |
| BookLaws.RunTold | phase5/include/OrderBook.hpp:18-38 | By scanning the operations of any legal run: an id rests exactly if it was added after any deletion, on the side of its last Add, with the price and quantity of the last Add or Modify naming it. |
| BookLaws.OthersKept | phase5/include/OrderBook.hpp:18-38 | An operation changes nothing under any other id than its own. |
| BookLaws.LegalAdditions | phase5/include/OrderBook.hpp:18-22 | A run is legal exactly if each Add names an id never added before, or deleted since. |
| BookParity.ArrivalsInTime | phase5/include/OptimizedOrderBook.hpp:48-72 | By scanning the operations: the ids stand in the order in which they were added last or moved to another price. |
| BookParity.LevelInTime | phase5/include/OptimizedOrderBook.hpp:52-54 | After any run each level lists its orders in the order in which they arrived at that price. |
| BookParity.RunKept | phase5/include/OptimizedOrderBook.hpp:48-80 | After any run the cells of the slab hold, under each id with a slot, exactly the side, price and quantity that the operations tell. |
| BookParity.Counts | phase5/include/OptimizedOrderBook.hpp:82-84 | `contains`, `size` and `levels` are those of the represented orders. |
| BookParity.Drive | phase5/include/OptimizedOrderBook.hpp:48-93 | Any run that never adds to a full pool leaves in the cells of the slab exactly the orders that a scan of the operations tells, with every level's list in order of arrival. |
| BookParity.OnOptimized | phase5/include/OptimizedOrderBook.hpp:82-84 | After any run the optimized book contains an id exactly if it was added after any deletion, and answers `size` and `levels` from the same orders. |
| BookParity.OnBaseline | phase5/include/OrderBook.hpp:40-42 | After any run the baseline book contains an id exactly if it was added after any deletion, and answers `size` and `levels` from the same orders. |
| BookParity.DriveBaseline | phase5/include/OrderBook.hpp:18-56 | After any run the baseline book holds under each id the side of its last Add and the price and quantity named last, and no other id. |
| BookParity.Twins | phase5/include/OptimizedOrderBook.hpp:48-93 | After the same run both books hold, under each id, the side, price and quantity that a scan of the operations tells, the same levels, the same ids at each level, and answer `contains`, `size` and `levels` alike. |
| BaselineBook.PricesAreGroups | phase5/include/OrderBook.hpp:40-42 | The keys of the price map are the prices in use. |
| BaselineBook.GroupsMean | phase5/include/OrderBook.hpp:44-48 | A level of the price map holds exactly the orders at its price, each as it is under its id, and is never empty. |
| BaselineBook.OrderBook.AddOrder | phase5/include/OrderBook.hpp:18-22 | The two maps stay consistent, and the orders gain exactly the new one. |
| BaselineBook.OrderBook.ModifyOrder | phase5/include/OrderBook.hpp:24-31 | Removal and re-insertion replace price and quantity and keep the side, or do nothing for an unknown id. |
| BaselineBook.OrderBook.DeleteOrder | phase5/include/OrderBook.hpp:33-38 | Removes the order from both maps, or changes nothing. |
| BaselineBook.OrderBook.EraseFromLevel | phase5/include/OrderBook.hpp:51-56 | The price map then groups exactly the other orders; an emptied level is gone. |
| Checksum.ComputeChecksum | hftprojectstudent/hftserver2026/main.cpp:62-79 | The server's nested-mod computation yields the sum of all entries of A*B modulo 997. |
| Checksum.ProductRow | hftprojectstudent/tools/blast_server.cpp:91-100 | Each kept row is that row of A*B, reduced entry by entry. |
| Checksum.GrandFolds | hftprojectstudent/hftclient2026/main.cpp:119-121 | The sum of all entries of A*B equals the sum over k of column sum k of A times row sum k of B, for all square matrices. |
| Checksum.ClosedForm | hftprojectstudent/hftclient2026/main.cpp:119-142 | The client's closed form modulo 997 is the server's answer. |
| Checksum.ClientFits | hftprojectstudent/hftclient2026/main.cpp:122-140 | At N = 128 the column sums and row sums fit `int` and the accumulated checksum fits `long long`. |
| Checksum.ServerFits | hftprojectstudent/hftserver2026/main.cpp:71 | From reduced operands, as the loop keeps them, the product fits the 64-bit type it is taken in and the sum fits `int`. |
| Numerals.ReadsBack | hftprojectstudent/tools/blast_server.cpp:268-273 | A number written in decimal is the number a reader of formatted input gets back, together with the text behind it. |
| Numerals.LineReadsBack | hftprojectstudent/hftserver2026/main.cpp:187-193 | From a line of two numbers the server reads the first and then the second. |
| Numerals.PayloadReads | hftprojectstudent/tools/blast_server.cpp:266-275 | What is on the wire: four lines, which a reader of numbers reads as the id, the size, and n * n entries each of A and of B, entry (i, j) at place i * n + j. |
| Wire.PayloadFrame | hftprojectstudent/tools/blast_server.cpp:266-275 | A serialised challenge is exactly one four-newline frame, whatever bytes follow. |
| Wire.PartialPayload | hftprojectstudent/hftclient2026/main.cpp:97-103 | A proper prefix of a payload is never taken for a frame. |
| Wire.FrameExtends | hftprojectstudent/hftclient2026/main.cpp:97-101 | A frame once complete is not changed by bytes that arrive later. |
| Wire.PayloadBound | hftprojectstudent/tools/blast_server.cpp:266-275 | The longest payload: 14 bytes, the digits of N, and four bytes per value. |
| Client2026.DecodeInverts | hftprojectstudent/hftclient2026/main.cpp:37-44 | The fixed-width parser recovers every number below 1000 and the width of its field, whatever separator follows, from three bytes that lie inside the frame. |
| Client2026.ReadValue | hftprojectstudent/hftclient2026/main.cpp:127 | Reading a value leaves the cursor on the text of the rest of the row, and the three loads stay within the text. |
| Client2026.Client.Scan | hftprojectstudent/hftclient2026/main.cpp:98-101 | The scan finds the end of the shortest prefix with four newlines, or that there is none. |
| Client2026.Client.Receive | hftprojectstudent/hftclient2026/main.cpp:105-107 | Received bytes go behind those already buffered. |
| Client2026.Client.Retain | hftprojectstudent/hftclient2026/main.cpp:149-150 | Exactly the bytes behind the consumed frame are kept, in order. |
| Client2026.Client.ParseVal | hftprojectstudent/hftclient2026/main.cpp:37-44 | On the text of a row the branch-per-digit parse of one field returns the next value and leaves the cursor on the text of the rest, loading no byte past it. |
| Client2026.Client.ParseNumber | hftprojectstudent/hftclient2026/main.cpp:113-117 | A decimal line of any length is read back to its value, and the cursor steps over the newline. |
| Client2026.Client.SumColumns | hftprojectstudent/hftclient2026/main.cpp:122-129 | Parsing A in place yields its column sums and leaves the cursor behind its last separator. |
| Client2026.Client.FoldRows | hftprojectstudent/hftclient2026/main.cpp:132-141 | Parsing B in place yields the closed form and leaves the cursor behind its last separator. |
| Client2026.Client.Solve | hftprojectstudent/hftclient2026/main.cpp:111-145 | From the bytes of a payload the client makes a line from which the server reads the id of the challenge and then the sum of all entries of A*B modulo 997; the cursor ends on the last newline of the frame. |
| Client2026.ReplyAnswers | hftprojectstudent/hftclient2026/main.cpp:144-146 | The line "id answer" is read by the server as the id and then the sum of all entries of A*B modulo 997. |
| FrameDecoding.DecodePayload | hftprojectstudent/hftclient2026/main.cpp:111-140 | Round trip: every cid and every value of both matrices are recovered from the payload's bytes alone. |
| ChallengeRun.FrontOfStream | hftprojectstudent/hftclient2026/main.cpp:97-109 | When the unread bytes are a stream of payloads, a found frame is the first payload, and without a frame the buffer is shorter than that payload. |
| ChallengeRun.StepKeeps | hftprojectstudent/tools/blast_server.cpp:164-179 | Every broadcaster, sender and client step keeps: unread buffer, wire, message in hand and outbox together are exactly the payloads not yet answered. |
| ChallengeRun.NeverOverflows | hftprojectstudent/hftclient2026/main.cpp:103-104 | The buffer-full exit is never enabled. |
| ChallengeRun.BufferNeverFull | hftprojectstudent/hftclient2026/main.cpp:20-22 | In particular no run with N = 128 fills the 4 MiB buffer. |
| ChallengeRun.EndToEnd | hftprojectstudent/hftclient2026/main.cpp:96-151 | For every interleaving and every chunking of the bytes: the k-th line sent is read by the server as the id of the k-th challenge that the run's events push, and then the sum of all entries of its A*B modulo 997. |
| ChallengeRun.PushedInRun | hftprojectstudent/tools/blast_server.cpp:277-284 | The challenges pushed after a run are those of its Push events, in order. |
| ChallengeRun.NoDeadlock | hftprojectstudent/tools/blast_server.cpp:164-179 | While a challenge is unanswered, a sender or client step is enabled. |
| ChallengeRun.AllAnswered | hftprojectstudent/hftclient2026/main.cpp:96-151 | When everything has been delivered and no frame is left, each challenge that the run's events push has been answered by a line read as its id and the right sum, in that order, and the buffer is empty. |
| ChallengeRun.Serve | hftprojectstudent/hftclient2026/main.cpp:94-151 | The client's own loop over its buffer, with any sizes of `recv`: one line for each challenge of the stream, in order, read by the server as its id and the sum of all entries of its A*B modulo 997; no overflow. |
| Scoring.ChallengeState.Receive | hftprojectstudent/hftserver2026/main.cpp:209-225 | An answer for another challenge is ignored; an accepted one replaces the sender's earlier one. |
| Scoring.Play | hftprojectstudent/hftserver2026/main.cpp:170-250 | After any sequence of openings and answers the board holds, for each name, its last answer to the challenge in hand with its latency, and nothing else. |
| Scoring.Winner | hftprojectstudent/hftserver2026/main.cpp:91-104 | Along any traversal the loop names a fastest correct answer below 2^31 - 1, or nobody when there is none. |
| Scoring.SearchFindsFastest | hftprojectstudent/hftserver2026/main.cpp:91-104 | Along any traversal of the map the search returns a name that answered correctly, with a latency below 2^31 - 1 that no correct answer undercuts, or the empty name when there is no such answer. |
| Scoring.FirstOfTies | hftprojectstudent/hftserver2026/main.cpp:95-104 | Among equally fast correct answers the one visited first wins: whoever answered correctly and is visited before the winner took longer. |
| Scoring.NamelessWins | hftprojectstudent/hftserver2026/main.cpp:106-110 | The promise to name the fastest correct client fails for a client with an empty name: two clients answered correctly, the nameless one first, and along every traversal the search returns nobody. |
| Scoring.WinnerReported | hftprojectstudent/hftserver2026/main.cpp:91-110 | For every board: the search returns a name along every traversal exactly if somebody qualifies and the empty name is not among the fastest. |
| HftParser.FindNewline | hft/src/client.cpp:94-97 | The newline scan returns the first newline, one byte before the pointer handed to the worker. |
| HftParser.AsInt32Keeps | hft/src/client.cpp:67-75 | Storing a parsed field in an `int32_t` keeps its low 32 bits, as a number in range. |
| HftParser.FieldsRead | hft/src/client.cpp:67-75 | From the start of the text of some values, the k-th field parsed is the k-th value. |
| HftIds.HeaderExact | hft/src/client.cpp:298-299 | With N of three digits, the two fields of the header end where its second line does exactly if the id is below 1000. |
| HftParser.Positions | hft/src/client.cpp:296-306 | With id and N below 1000 the main thread starts on the text of A, and the pointer handed to the worker is the start of the text of B. |
| HftParser.ParsesMatrices | hft/src/client.cpp:296-309 | With id and N below 1000 the fields parsed are A row by row and B transposed, all from 0 to 996: what the packed kernel needs. |
| HftParser.TierTrace | hft/src/trace.hpp:35-86 | On the parsed A and the transposed B every supported tier of the kernel returns the trace of the challenge. |
| HftParser.SmallIdsRight | hft/src/client.cpp:296-325 | Every challenge with an id below 1000 is answered with its trace modulo 997, for N below 1000 and any supported tier. |
| HftIds.LargeIdsIgnoreB | hft/src/client.cpp:298-309 | For every challenge with an id from 1000 on, and N from 100 on, the answer is the same whatever B is: both threads read nothing but header and A. |
| HftIds.LargeIdsWrong | hft/src/client.cpp:298-299 | Each id from 1000 on has a challenge that is answered wrongly. |
| HftIds.ExactIds | hft/src/client.cpp:296-325 | With N of three digits, all challenges of an id are answered with their traces exactly if the id is below 1000. |
| HftIds.ReadsInside | hft/src/client.cpp:67-75 | Whatever the id, neither thread reads a byte behind the payload. |
| Handoff.StepKeeps | hft/src/client.cpp:287-324 | Every step of either thread, in any state kept so far and for any id, keeps whose turn it is, both cursors and what has been parsed into A and B, and the answers so far. |
| Handoff.MainTouches | hft/src/client.cpp:287-324 | A step of the main thread changes no shared place outside its write set. |
| Handoff.MainDepends | hft/src/client.cpp:287-324 | What it leaves in its write set and in its own variables depends only on those variables, its read set and the places it updates. |
| Handoff.WorkerTouches | hft/src/client.cpp:192-206 | A step of the worker changes no shared place outside its write set. |
| Handoff.WorkerDepends | hft/src/client.cpp:192-206 | What it leaves there depends only on its own variables, its read set and the places it updates. |
| Handoff.Exclusive | hft/src/client.cpp:192-206 | In every interleaving, for any ids, no step of one thread writes the buffer, `worker_p`, A or B while the other's next step uses it; and when the trace is computed A and B are complete: all fields from either start, those of B across. |
| Handoff.KernelReady | hft/src/client.cpp:324 | When the trace of a challenge with an id below 1000 is computed, the arrays are its A and the transpose of its B, in range for the kernel. |
| Handoff.OrderIrrelevant | hft/src/client.cpp:301-310 | Wherever both threads can step, either step leaves the other possible, and both orders lead to the same state. |
| Handoff.AnswersAreResponses | hft/src/client.cpp:287-328 | Every interleaving gives, for the challenges finished and in their order, the answers that one thread alone would compute from each payload. |
| Handoff.JobsAreTaken | hft/src/client.cpp:287-294 | The challenges handled are those received, in that order, each once. |
| Handoff.AnswerIsRight | hft/src/client.cpp:287-328 | In every interleaving an answer is the trace exactly if that response is. |
| Handoff.AnswersAreTraces | hft/src/client.cpp:287-328 | In every interleaving, with the kernel of any supported tier, each challenge with an id below 1000 is answered with its trace modulo 997, in order, whatever the other challenges are. |
| Handoff.EveryTierAnswers | hft/src/trace.hpp:28-34 | At N = 128 that holds with AVX2, with AVX-512 and with the scalar form. |
| Handoff.EveryTierExact | hft/src/client.cpp:298-299 | At N = 128, with each of the three, all challenges of an id are answered with their traces exactly if the id is below 1000. |
| Handoff.NeverStuck | hft/src/client.cpp:301-310 | One of the two threads always has a step. |
| Handoff.AnsweredInTime | hft/src/client.cpp:287-328 | Each step other than receiving brings the answer nearer: however the threads are scheduled, the challenge in hand is answered within a number of steps fixed by N. |
| Traces.DotIsTrace | hft/src/trace.hpp:28-35 | The flat dot product of A with the transposed B is the trace of A*B. |
| TraceKernel.RegistersKeep | hft/src/trace.hpp:49-54 | What the registers keep: a 32-bit sum modulo 2^32 in range, a 16-bit pattern as a signed number, and under saturation the value or the nearer end of the range. |
| TraceKernel.PackAt | hft/src/trace.hpp:49-50 | Where packing puts each element within its lane; in range, saturation changes nothing. |
| TraceKernel.MaddOfPacks | hft/src/trace.hpp:49-52 | Each output of the multiply-add of packed vectors is two adjacent products, permuted within its lane, and at most 2*996*996. |
| TraceKernel.MaddSums | hft/src/trace.hpp:49-52 | Summed over its lanes, the multiply-add gives the dot products of both pairs of vectors. |
| TraceKernel.AddSums | hft/src/trace.hpp:54 | Without overflow, the merge of two accumulators adds up to both sums. |
| TraceKernel.MultiplyAdd | hft/src/trace.hpp:49-50 | Loading, packing, multiplying and adding two vectors of each array is the specified advance of an accumulator. |
| TraceKernel.AdvanceSums | hft/src/trace.hpp:49-50 | One advance adds the dot product of its block to the sum of the lanes, and raises the lane bound by one pair. |
| TraceKernel.KernelIsDot | hft/src/trace.hpp:37-81 | For any lane count, the kernel in the arithmetic of its registers returns the exact dot product as long as the merged lanes fit 32 bits. |
| TraceKernel.TraceABT | hft/src/trace.hpp:37-81 | The loop with two accumulators, merge and reduction returns the kernel's value, which is the scalar dot product. |
| TraceKernel.TiersFit | hft/src/trace.hpp:28-34 | N = 128 is covered by 512 rounds of AVX2 or 256 of AVX-512, and the merged lanes fit: 2,031,648,768 in the worst case with AVX2, below 2^31. |
| Traces.TraceScalar | hft/src/trace.hpp:82-85 | The scalar form is the dot product. |
| Traces.TraceAB | hft/src/trace.hpp:17-26 | The form without transposition computes the same trace. |
| Traces.FullProduct | hft/src/client_naive.cpp:51-55 | The reference client's loops compute the whole product. |
| Traces.NaiveTrace | hft/src/client_naive.cpp:51-59 | Its diagonal sums to the same trace the fast client computes. |
| PriorityQueue.TopIsBest | hw5/part2_priority_queue.cpp:62 | In heap order nothing is served before the root. |
| PriorityQueue.BinaryHeap.SiftUpHole | hw5/part2_priority_queue.cpp:35-43 | Carrying the hole up and filling it restores heap order; the elements are those with the value in the hole. |
| PriorityQueue.BinaryHeap.SiftDownHole | hw5/part2_priority_queue.cpp:44-55 | Carrying the hole down past the better child and filling it restores heap order, with the same elements. |
| PriorityQueue.BinaryHeap.Push | hw5/part2_priority_queue.cpp:64-67 | Heap order is kept, and the multiset gains exactly the order. |
| PriorityQueue.BinaryHeap.Pop | hw5/part2_priority_queue.cpp:68-72 | Heap order is kept, and the multiset loses exactly the root. |
| PriorityQueue.ServesConserves | hw5/part2_priority_queue.cpp:111-116 | Over any run, what was pushed is what was served and what is left, with multiplicity. |
| PriorityQueue.ServesUnique | hw5/part2_priority_queue.cpp:101-122 | Without two orders of the same price and timestamp, every correct priority queue serves the same orders in the same sequence. |
| PriorityQueue.DrainSorted | hw5/part2_priority_queue.cpp:97-99 | Pops alone serve by falling price and, at one price, by rising timestamp, on any run of a correct queue. |
| PriorityQueue.ServesBest | hw5/part2_priority_queue.cpp:20-25 | On any run, whatever each pop of a non-empty queue serves has the highest price of all orders waiting then - those pushed before and not yet served - and, among those, the earliest timestamp. |
| PriorityQueue.Drive | hw5/part2_priority_queue.cpp:111-116 | Any interleaving of pushes and guarded pops on the heap is a run of a correct queue: every pop serves the highest price waiting and, among those, the earliest timestamp. |
| PriorityQueue.Drain | hw5/part2_priority_queue.cpp:97-99 | Draining empties the heap and yields a permutation of it by falling price and, at one price, by rising timestamp. |
| Matmul.MultiplyNaive | hw2/linalg.cpp:38-55 | The product, or nothing written for a null pointer or mismatched dimensions. |
| Matmul.MultiplyTransposedB | hw2/linalg.cpp:59-74 | The product with the matrix whose transpose is passed; nothing written when refused. |
| Matmul.MultiplyTiled | hw2/linalg.cpp:80-107 | The tiled six-loop form computes the product for all dimensions, whether or not 32 divides them; nothing written when refused. |
| Matmul.Tile | hw2/linalg.cpp:96-103 | One tile advances exactly its block of cells by exactly its terms. |
| Matmul.Transpose | hw2/linalg.cpp:140-144 | The destination holds the transpose. |
| Matmul.TransposeTwice | hw2/linalg.cpp:140-144 | Transposing twice gives the matrix back. |
| Matmul.ProductUnique | hw2/linalg.cpp:38-107 | Whichever of the functions computed it, the product has the same cells. |
| Matmul.ThreeWays | hw2/linalg.cpp:38-144 | On the same inputs the naive form, the tiled form, and transposition followed by the transposed form give the same product. |
| SharedHandle.ControlBlock.Drop | session3/part4_shared_handle.cpp:28-31 | The last reference destroys the trade once and frees the block. |
| SharedHandle.Handles.NoDangling | session3/part4_shared_handle.cpp:66-67 | No live handle refers to a freed block or a destroyed trade. |
| SharedHandle.Handles.DestroyedOnce | session3/part4_shared_handle.cpp:26-33 | A trade is destroyed at most once, and has been exactly when no live handle refers to its block. |
| SharedHandle.Handles.Construct | session3/part4_shared_handle.cpp:36 | A handle over a raw pointer starts a block with count one. |
| SharedHandle.Handles.CopyConstruct | session3/part4_shared_handle.cpp:40-42 | A copy shares the block and raises its count. |
| SharedHandle.Handles.MoveConstruct | session3/part4_shared_handle.cpp:53-55 | A move hands the block over, counts unchanged. |
| SharedHandle.Handles.Release | session3/part4_shared_handle.cpp:26-33 | Gives up one reference, of this handle only. |
| SharedHandle.Handles.Destroy | session3/part4_shared_handle.cpp:38 | The handle is gone; the other handles keep their blocks. |
| SharedHandle.Handles.CopyAssign | session3/part4_shared_handle.cpp:44-51 | Shares the other's block; self-assignment and assignment between handles of one block leave every count as it was. |
| SharedHandle.Handles.MoveAssign | session3/part4_shared_handle.cpp:57-64 | Takes the other's block and leaves it empty; self-assignment changes nothing. |
| SharedHandle.RunNext | session3/part4_shared_handle.cpp:36-64 | On numbers, handle by handle: a made handle gets the next number, copy and assignment share the source's block, move and move assignment leave the source without one, a closed handle is gone; no other handle changes. |
| SharedHandle.Drive | session3/part4_shared_handle.cpp:36-64 | After any run of constructions, copies, moves, assignments and destructions, every handle refers to the very block that the run on block numbers says, and every count is the number of its handles. |
| SharedHandle.Fate | session3/part4_shared_handle.cpp:26-33 | A block is freed, and its trade has been destroyed, once, exactly if the run on numbers leaves no handle with it. |
| SharedHandle.Finish | session3/part4_shared_handle.cpp:71-89 | When the remaining handles go, every trade ever handed over has been destroyed exactly once. |

## Left out

- Sockets, `recv` and `send` internals, name registration, CPU pinning, schedulers, timers, latency statistics, JSON
  and CSV output: foreign calls or reporting. The network is a reliable byte stream cut up arbitrarily.
- The latency stamp of a trade record (phase 4): a clock reading.
- IEEE rounding and NaN: prices and matrix entries are reals.
- Resubmitted, already cancelled or non-positive orders in phase 4: submission asks for a new order of positive
  quantity, submitted once, as the driver does.
- Overflow of `int` quantities and fills in phase 4, of `uint32_t` displacements and of `round_pow2` at the top of
  `size_t` in hw5.
- Hash mixing, the inline and heap storage of keys, and the pointer that `find` returns (the value is returned).
- Duplicate ids and an exhausted pool in phase 5: preconditions of `addOrder`, as its callers keep them.
- Raw memory of the slab (placement construction, destruction at the end); level iterators are modelled by the price
  that keys them.
- The traversal order of the ordered map is not computed by a tree: `Books.Begin` picks the least key.
- Several clients of one server: the protocol model follows one client's outbox; the others have their own.
- Answers of several challenges that arrive at the server in one `recv`: a message is one answer. `Numerals.ReadTwo`
  reads numbers without a sign, which the lines sent never have.
- ChallengeRun.NoDeadlock: says that a step is enabled, not that the scheduler takes it, and nothing about shutdown.
- Weak memory: steps on `work_state` are sequentially consistent; the shutdown hand-off and the serial fallback of the
  hft client, and `recv_payload_busy`, which is taken to deliver one whole payload.
- `parse_int_s1` is the same function as `parse_val` and appears once. In the scalar tier the 64-bit sum over fields
  that are no values, which occur for ids from 1000 on, is taken to be exact.
- The vector forms of `find_newline`: only the scalar form is modelled.
- Alignment of vector loads; the scalar reduction stands for the widening one.
- TraceKernel.TraceABT: asks for an array of whole blocks, which N = 128 gives, and for values in range; that they are
  is `HftParser.ParsesMatrices`.
- Aliasing of inputs and result in the matrix products, which would spoil them: excluded by precondition.
- Matrix-vector products (hw2), the moving average and order book of hw5, hw1, hw3, hw4, phase 2, phase 3, the other
  parts of session 3 and the pool of phase 4: easier versions of what is here.
