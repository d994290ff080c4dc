# Verified models of the trading engine's stateful core

A Dafny model of the parts of the engine that keep state over a whole run, with proofs of what they
promise. Code that updates objects, arrays or queues in place is modelled by classes and methods with
loops, each proved against a value-level specification; the theorems are then about all runs of that
specification, or about the invariants every method keeps.

`dafny verify dfyconfig.toml` checks the whole project.

| file | what it models |
|---|---|
| `Orders.dfy`, `OrderTable.dfy`, `OrderManager.dfy` | an order's life, the order table as a value, and the order manager's handlers over order objects |
| `MappedFile.dfy`, `BlotterReader.dfy`, `Restart.dfy` | the log file's concurrent reserve-and-copy append, the reader's framing and replay loop, and the whole way from a live run to a restarted manager |
| `ReorderPcap.dfy` | re-sorting a capture with a bounded heap, and the pass-doubling driver |
| `BoeFraming.dfy` | reassembling length-prefixed messages from arbitrary chunks |
| `PcapMux.dfy` | merging captures into one stream with one-second timer ticks |
| `SimEvents.dfy`, `SimExchange.dfy`, `SimBooks.dfy`, `SimRuns.dfy`, `SimCrossing.dfy`, `L2Sim.dfy` | the exchange simulator in a closed loop with the order manager and its listeners: one order's ledger, the simulator as a value, what every state keeps, what every run does, trades meeting the book, and the object itself |
| `Position.dfy`, `EquityInstrument.dfy` | profit and loss; the sliding order-rate window and pre-trade limits |
| `L2Book.dfy`, `QuoteCache.dfy` | price levels with their best quote, and the cache refreshed from dirty marks |
| `Pricer.dfy` | time averages in closed form against their per-second definition |
| `Alphanumeric.dfy`, `MappedRing.dfy`, `Time.dfy`, `Basics.dfy` | tokens, the doubly mapped ring buffer, timestamps, 32-bit arithmetic |

## How the runs are modelled

Each live handler of the order manager appends its record to a log; `OrderTable.Live` and
`OrderTable.OnLog` are what a live operation and a replayed record do to the table as a value, and
`OrderTable.Kept` says what of an order a restart must bring back. The methods of the class
`OrderManager` update order objects through references and are proved to do exactly that.

The simulator's listeners are an arbitrary function from the events delivered so far to the sends and
cancels they ask for, so the invariants hold against every strategy. `SimExchange.Sim` is the simulator as
a value; every method of the class is proved to make of it what one of its step functions does, and the run
methods end in a state that `SimExchange.Ran` reaches. The ghost parts of the value are history: every event
ever scheduled, when each order was sent, what it met on arrival, whose cancel request was accepted.
`SimBooks.Left` names the orders the closed-loop theorem is about: immediate, accepted by the simulator, no
cancel request accepted. `SimEvents.Balanced` is the invariant: shares filled, cancelled and still under way
in queued events make up the order's size, in one of two ways that latencies and the market it met decide.
What memory holds after an erasure is an arbitrary value. `Restart` drives the log's writers, a live manager
and a restarted one, order objects included.

The blotter's writers take their two atomic steps, reserve and copy one byte, in any interleaving. The
timer's ticks and the dispatched packets are one trace. Prices, values and averages are reals; sizes and
ids are 32-bit and wrap where the code's do.

## Where the code and its promise differ

Each is stated by the member named, where it can fail with the exact condition under which it does not.

- Message reassembly copies the rest of a held-back message bounded by the length of the whole chunk,
  although part of the chunk may be used up. `BoeFraming.BoeSession.HandleRawBytes` holds for the bound
  by the remainder; with the bound as written it holds if and only if the copy stays in the chunk.
- Extending the table to id 2^32 - 1 wraps to zero and does nothing, so that one id cannot be replayed:
  `OrderTable.ReplayRecovers`, `OrderTable.OnLogSound`. A logged send for an unknown instrument writes
  its slot without extending the table, and adopting an orphan under id 0 fills the slot that must stay
  empty (`OrderTable.AdoptOrphanSound`).
- With a cancel latency below the acknowledgement latency a partly crossed immediate order is cancelled,
  then opened again in full by its acknowledgement, and stays open by the shares that were cancelled:
  `SimExchange.ImmediateClosesIff`, for every run `L2Sim.L2SimSession.ImmediateOrdersCloseIff`, and from send
  to end `SimRuns.SentOrderClosesIff`. The source asserts the order's state when it is acknowledged and
  cancelled (`src/oe/L2SimSession.cpp:601`, `src/oe/L2SimSession.cpp:681`), so such an order stops a build
  with assertions; the modelled outcome is that of a build without them.
- An execution with shares left after those ahead of a simulated order fills all of the order, in fills of
  that many shares, because the loop comes back to the same order and never takes its fills off the
  execution: `SimCrossing.ExecWithinIff`, with an input in `SimCrossing.OneShareFillsAll`.
- Taking a whole resting order off the simulated book, the code reads the amount to report from the entry
  it has just erased: `SimExchange.ReduceReportsIff`, with an input in `SimExchange.WholeCancelMayBeRefused`.
- A cancel request names the quantity to leave open, as the manager and the other sessions read it, but the
  simulated exchange takes that quantity off: `SimExchange.CancelLeavesNewQtyIff`.
- A simulated auction order at a price where another one waits is acknowledged but is nowhere on the book,
  because `emplace` keeps the earlier entry: `SimExchange.ArrivedAccountsIff`.
- A cross that cancels remainders leaves the cancelled shares in the simulated book:
  `SimCrossing.RoundReports`.
- Sending an order object a second time puts it in two slots, one of them not its own; a send after the
  last 32-bit id wraps: `OrderManager.OrderManager.Send`.
- An `OrderModified` message that raises the open size cancels a wrapped quantity:
  `Orders.ModifiedSetsOpen`.
- The spread average uses a negative value to mean "not set", so under a crossed quote a reading is not
  what an update at that moment would leave: `Pricer.EveryReadingSurvivesIff` has the exact condition,
  `Pricer.CrossedQuoteBreaksReading` and `Pricer.CrossedFirstQuoteBreaksReading` the inputs.
- The size sampled each second is half of a 32-bit sum that may wrap: `Pricer.AvailIsMeanIff`.
- The shares to locate are cut to 32 bits: `EquityInstrument.LocatesCoverShortIff`.
- Reading the interval's average in its first second divides by zero: `Pricer.StockStats.GetIntervalSpread`.
- Fees on fills that leave or reverse a position are not booked: `Position.PnlIdentity` carries them as
  an explicit term, zero when fees are.
- A timestamp constructed from negative nanoseconds is 2^64 ns late: `Time.MakeKeepsInstant`.
- The log refuses a record that would end exactly at the end of the mapping, and its offset keeps
  advancing after a refusal: `MappedFile.AsyncMappedFile.GrantedFit`.
- The mux's timer starts from the first dispatched packet whose seconds are not zero, which is the first
  packet in any capture after 1970: `PcapMux.TicksStayExact`.

## Model

| member | source | states |
|---|---|---|
| OrderTable.ReplayRecovers | src/oe/OrderManager.cpp:85-390 | for every run of sends, cancels, destroys and exchange callbacks from an empty manager, replaying what it logged rebuilds the ids and every order that was not locally rejected, if and only if the run did not use the last 32-bit id |
| OrderTable.StepRecovers | src/oe/OrderManager.cpp:512-685 | one live operation and the replay of its records keep the live table and the replayed table in agreement |
| OrderTable.OrderRecovers | src/oe/OrderManager.cpp:634-685 | for each kind of record: replaying it on the recovered order gives what the live operation made of the order |
| OrderTable.ReplayStopsShort | src/oe/OrderManager.cpp:512-526 | no log whatever brings a replayed table to the last 32-bit id |
| OrderTable.SentAdoptedIffNew | src/oe/OrderManager.cpp:572-607 | a replayed send brings its order back exactly when its id is beyond every id already seen |
| OrderTable.OnLogSound | src/oe/OrderManager.cpp:512-685 | for any record with any id: the handler stays inside the table exactly when the id is known or can still be extended to; then slot 0 stays empty, every order sits in its own slot, the size is the last id plus one, and ids never go back |
| OrderTable.AdoptOrphanSound | src/oe/OrderManager.cpp:556-570 | an orphan adoption keeps the table sound exactly when its id fits and it does not put an order in slot 0 |
| OrderTable.LiveSound | src/oe/OrderManager.cpp:85-390 | every live operation keeps the table sound and its ids never go back, except a send after the last 32-bit id, which always breaks it |
| OrderTable.ReachableSound | src/oe/OrderManager.cpp:85-685 | any interleaving of live operations, log records and adoptions that stays in bounds reaches only sound tables, with non-decreasing ids |
| Restart.RestartRecovers | src/oe/FileBlotterReader.cpp:23-85 | end to end over order objects: a run of the live manager, its records written to the log file, the reader's loop over the file, and the dispatch into a second manager's replay handlers rebuild the table, if and only if the last id was not used |
| Restart.WriteAndRestart | src/oe/FileBlotterReader.cpp:23-85 | the same from the log writers' steps on: any interleaving that reserves the run's records and finishes in the mapping leaves a file the restarted manager recovers from |
| Restart.LiveRun | src/oe/OrderManager.cpp:85-390 | any run of commands on the manager and its order objects makes the table and the log that the run makes over values |
| Restart.Perform | src/oe/OrderManager.cpp:85-390 | one command through the manager's own method, order objects included, is the operation on the table and appends its records |
| Restart.ReplayRun | src/oe/OrderManager.cpp:512-685 | replaying any records into a new manager gives the table replayed over values, and stops exactly where a handler would leave the table |
| Restart.ReplayOne | src/oe/BlotterReader.cpp:52-146 | each record reaches its handler, which does to the objects what the record does to the table |
| Restart.ReadBack | src/oe/FileBlotterReader.cpp:23-85 | the reader gives back the logged records from the finished file |
| Restart.CutLogReplaysPrefix | src/oe/BlotterReader.cpp:34-146 | a log cut at any byte replays exactly the records that lie wholly before the cut |
| OrderManager.Order.UpdateOnAck | src/oe/OrderManager.cpp:201-210 | the in-place update is the acknowledgement of the order's value |
| OrderManager.Order.UpdateOnReject | src/oe/OrderManager.cpp:230-237 | the in-place update is the rejection of the order's value |
| OrderManager.Order.UpdateOnFill | src/oe/OrderManager.cpp:258-274 | the in-place update is the fill of the order's value, sizes wrapping at 32 bits |
| OrderManager.Order.UpdateOnCancel | src/oe/OrderManager.cpp:340-358 | the in-place update is the cancel of the order's value, which never drives the open size below zero |
| OrderManager.OrderManager.Send | src/oe/OrderManager.cpp:85-131 | a new order takes the next id and slot, sent or locally rejected, with the matching record; a missing order or session changes nothing; the table stays sound if and only if the order object was not in it and an id was left |
| OrderManager.OrderManager.Cancel | src/oe/OrderManager.cpp:133-163 | a refused cancel changes and logs nothing; an accepted one marks only that order and logs the request |
| OrderManager.OrderManager.Destroy | src/oe/OrderManager.cpp:165-199 | a destroyed order leaves its own slot empty and is logged; a refused destroy changes nothing |
| OrderManager.OrderManager.OnAcknowledged | src/oe/OrderManager.cpp:212-228 | the callback changes one order in place and appends its record; the rest of the table is as before |
| OrderManager.OrderManager.OnRejected | src/oe/OrderManager.cpp:239-256 | the callback changes one order in place and appends its record; the rest of the table is as before |
| OrderManager.OrderManager.OnFilled | src/oe/OrderManager.cpp:276-320 | the callback changes one order in place and appends its record; a fill within what is open leaves the order filled, and logs a full fill, exactly when it brings the filled shares to the size |
| OrderManager.OrderManager.OnCancelRejected | src/oe/OrderManager.cpp:322-338 | the callback changes one order in place and appends its record; the rest of the table is as before |
| OrderManager.OrderManager.OnCancelled | src/oe/OrderManager.cpp:360-390 | the callback changes one order in place and appends its record; the rest of the table is as before |
| OrderManager.OrderManager.OwnSlot | src/oe/OrderManager.cpp:98-103 | an order in the table occupies only the slot of its own id |
| OrderManager.OrderManager.ExtendLocalID | src/oe/OrderManager.cpp:512-526 | the table grows with empty slots up to the id, and no order in it moves |
| OrderManager.OrderManager.Adopt | src/oe/OrderManager.cpp:538-554 | the slot holds the adopted order, marked sent under that id, nothing else changed, and the table stays sound if and only if no order went into slot 0 |
| OrderManager.OrderManager.Addressed | src/oe/OrderManager.cpp:528-536 | the order a record addresses is the one in the slot of its id after the extension |
| OrderManager.OrderManager.OnLogOrderSent | src/oe/OrderManager.cpp:572-607 | the handler performs the table's replay step for the record and logs nothing |
| OrderManager.OrderManager.OnLogLocalReject | src/oe/OrderManager.cpp:609-613 | a rejected order leaves an empty slot |
| OrderManager.OrderManager.OnLogPendingCancel | src/oe/OrderManager.cpp:615-622 | the handler performs the table's replay step for the record and logs nothing |
| OrderManager.OrderManager.OnLogDestroy | src/oe/OrderManager.cpp:624-632 | the handler performs the table's replay step for the record and logs nothing |
| OrderManager.OrderManager.OnLogAcknowledged | src/oe/OrderManager.cpp:634-641 | the handler performs the table's replay step for the record and logs nothing |
| OrderManager.OrderManager.OnLogRejected | src/oe/OrderManager.cpp:643-651 | the handler performs the table's replay step for the record and logs nothing |
| OrderManager.OrderManager.OnLogFilled | src/oe/OrderManager.cpp:653-665 | the handler performs the table's replay step for the record and logs nothing |
| OrderManager.OrderManager.OnLogCancelRejected | src/oe/OrderManager.cpp:667-675 | the handler performs the table's replay step for the record and logs nothing |
| OrderManager.OrderManager.OnLogCancelled | src/oe/OrderManager.cpp:677-685 | the handler performs the table's replay step for the record and logs nothing |
| Orders.ConservedThroughout | src/oe/OrderManager.cpp:201-390 | from an acknowledged order on, through any fills and cancels within what is open, open + filled + cancelled is the size, the totals are the sums of the events, and a filled order has nothing open |
| Orders.ConservedStep | src/oe/OrderManager.cpp:258-358 | one fill, cancel, cancel request or cancel rejection moves its shares between open, filled and cancelled and loses none |
| Orders.AckConserves | src/oe/OrderManager.cpp:201-210 | an acknowledgement of the whole size starts in balance |
| Orders.EndStates | src/oe/OrderManager.cpp:230-358 | the state an event leaves, by sizes alone: a fill fills the order exactly when it brings the filled shares to its size, a cancel cancels it exactly when it takes all that is open, and then nothing of it can trade |
| Orders.RunEnds | src/oe/OrderManager.cpp:201-358 | over every list of events from an acknowledgement: the last event and the totals of all of them determine the state, filled exactly when the fills make up the size, cancelled exactly when fills and cancels do |
| Orders.RejectEnds | src/oe/OrderManager.cpp:230-237 | a rejected order has nothing open and is terminal |
| Orders.AckOpens | src/oe/OrderManager.cpp:201-210 | an acknowledged order has what was acknowledged open |
| OrderTable.FillLogged | src/oe/OrderManager.cpp:276-320 | the record of a fill within what is open says partial exactly when the order is left unfilled |
| OrderTable.SendGoesOutIff | src/oe/OrderManager.cpp:85-131 | an order goes out exactly when it has a price, a size, a side, a lifetime and a type, and the checks and the session agree; otherwise it is locally rejected; either way it has the next id |
| OrderTable.CancelGoesOutIff | src/oe/OrderManager.cpp:133-163 | a cancel goes out exactly for a routed, unfinished order with open shares, and while one is pending only to leave fewer; only that order changes |
| OrderTable.DestroyedIff | src/oe/OrderManager.cpp:165-199 | an order leaves the table exactly when it is done or need not be, and the session lets a routed one go |
| Orders.ModifyTellsFilledPlusNew | src/oe/BATS/BOE20Session.cpp:1774-1796 | the quantity a modify request carries is the filled shares plus those to stay open, without underflow |
| Orders.ModifiedSetsOpen | src/oe/BATS/BOE20Session.cpp:641-662 | a modified message leaves exactly its leaves quantity open if and only if that does not raise it |
| MappedFile.AsyncMappedFile.ReserveSpace | src/core/AsyncMappedFile.cpp:68-84 | the atomic reservation extends the granted area end to end, or is refused when it would reach the end of the mapping, the offset advancing either way |
| MappedFile.AsyncMappedFile.CopyOne | src/core/AsyncMappedFile.cpp:75-78 | one byte of one writer's copy disturbs no other reservation |
| MappedFile.AsyncMappedFile.Run | src/core/AsyncMappedFile.cpp:68-84 | any interleaving of any number of writers makes its reservations in order and grants exactly those that fit; once every copy is finished inside the mapping, the file is everything reserved before and by the schedule, end to end |
| MappedFile.AsyncMappedFile.GrantedFit | src/core/AsyncMappedFile.cpp:75-81 | the granted reservations are the longest prefix below the mapping's size; after one refusal all later ones are refused |
| MappedFile.AsyncMappedFile.QuiescentContents | src/core/AsyncMappedFile.cpp:55-84 | once all copies finish the file is the concatenation of the granted records in reservation order, and all were granted exactly when the offset is still inside the file |
| MappedFile.AsyncMappedFile.Write | src/core/AsyncMappedFile.cpp:68-84 | one complete write returns its length, or the error of an empty or refused one, and leaves no copy pending |
| BlotterReader.TruncatedRecords | src/oe/BlotterReader.cpp:34-146 | from a file cut anywhere the framing gives exactly the records wholly before the cut |
| BlotterReader.WholeFileRecords | src/oe/BlotterReader.cpp:34-146 | decoding inverts encoding for every sequence of records |
| BlotterReader.RecordBytes | src/oe/i01_oe/OrderLogFormat.hpp:104-120 | the bytes of a record: the length of its body, low byte first, type, subtype, 16 bytes of time stamp, and the body |
| BlotterReader.NotifiedTypes | src/oe/BlotterReader.cpp:52-146 | listeners hear of the types 2 to 23, not of time stamps or undefined types |
| BlotterReader.AppendedRecords | src/oe/BlotterReader.cpp:34-146 | what is appended to a whole file is read after its records |
| BlotterReader.FileBlotterReader.Consume | src/oe/FileBlotterReader.cpp:64-83 | one decode moves the cursor past the record or gives the cursor up |
| BlotterReader.FileBlotterReader.Rewind | src/oe/FileBlotterReader.cpp:23-31 | the cursor is at the start of the file, or nowhere if it cannot be read, and nothing is notified |
| BlotterReader.FileBlotterReader.AtEnd | src/oe/FileBlotterReader.cpp:33-54 | looks at the file again: true exactly at the end of the data, after a malformed record, on an unreadable file or on one that shrank, whatever became of the file since |
| BlotterReader.FileBlotterReader.Decode | src/oe/BlotterReader.cpp:34-146 | the bytes consumed are those of the record at the cursor, which the listeners are told of if its type is dispatched; a short header or body is an error |
| BlotterReader.FileBlotterReader.DoNext | src/oe/FileBlotterReader.cpp:56-85 | decodes from the cursor what was seen of the file before looking again, telling one record and moving past it, or stopping at a malformed one |
| BlotterReader.FileBlotterReader.Next | src/oe/BlotterReader.cpp:15-20 | what was told and what is still to be told stay the same in sum, and the cursor moves on unless there is nothing to read; the file may have grown or shrunk since the last call |
| BlotterReader.FileBlotterReader.Replay | src/oe/BlotterReader.cpp:27-32 | the loop terminates and notifies exactly the records still to be read, in order |
| ReorderPcap.Pass1 | src/apps/reorderpcap/reorderpcap.cpp:43-165 | a chunked pass succeeds if and only if no packet has as many earlier, strictly later-timed packets as the chunk is long, and otherwise returns the count at the first such packet; on success its output is the stable sort of the input, the unchecked drain included |
| ReorderPcap.Ingest | src/apps/reorderpcap/reorderpcap.cpp:78-126 | one round of the loop fails exactly when the packet just read comes too late |
| ReorderPcap.Drain | src/apps/reorderpcap/reorderpcap.cpp:151-161 | the drain completes the stable sort although it compares with nothing written before |
| ReorderPcap.Reorder | src/apps/reorderpcap/reorderpcap.cpp:229-278 | the driver ends in success exactly when the configuration is usable and, if the fallback is forbidden, the largest chunk suffices; every pass before the last failed with a chunk that was too small, and there is at most one pass more than asked for |
| ReorderPcap.Top | src/apps/reorderpcap/reorderpcap.cpp:48-48 | the queue yields the least record by time and sequence number |
| ReorderPcap.StableSortUnique | src/apps/reorderpcap/reorderpcap.hpp:16-17 | a permutation ascending in (time, sequence) is unique, so success at any chunk size writes the same file |
| ReorderPcap.LargerChunkSuffices | src/apps/reorderpcap/reorderpcap.cpp:98-115 | a chunk size that suffices makes every larger one suffice |
| ReorderPcap.DoubledIsPower | src/apps/reorderpcap/reorderpcap.cpp:267-275 | after n failed passes the chunk is the first one times 2^n |
| ReorderPcap.TooLateBoundsChunk | src/apps/reorderpcap/reorderpcap.cpp:98-115 | a pass can only fail with a chunk smaller than the file, so doubling the chunk cannot overflow |
| ReorderPcap.NotTooLate | src/apps/reorderpcap/reorderpcap.cpp:98-103 | when the time does not go back nothing that precedes the packet has been written too early |
| ReorderPcap.MustGiveUp | src/apps/reorderpcap/reorderpcap.cpp:102-115 | when the queue's least record goes back in time it is the packet just read, and it is too late for the chunk |
| BoeFraming.BoeSession.HandleRawBytes | src/oe/BATS/BOE20Session.cpp:292-403 | after a chunk the messages handled and the bytes held back are those of parsing the stream, if and only if the second copy is bounded by what is left of the chunk or would not have left it |
| BoeFraming.BoeSession.HandleAfterDangling | src/oe/BATS/BOE20Session.cpp:297-367 | the same for the branch that completes a held-back message |
| BoeFraming.BoeSession.FinishMessage | src/oe/BATS/BOE20Session.cpp:327-367 | the same once the length field is complete |
| BoeFraming.BoeSession.HandleRest | src/oe/BATS/BOE20Session.cpp:357-361 | the recursion on the rest of the chunk continues the same parse |
| BoeFraming.BoeSession.HandleFresh | src/oe/BATS/BOE20Session.cpp:368-402 | the branch with nothing held back follows the parse for either bound |
| BoeFraming.BoeSession.Hold | src/oe/BATS/BOE20Session.cpp:347-349 | the copy loops append exactly the counted bytes from the index on |
| BoeFraming.BoeSession.Receive | src/oe/BATS/BOE20Session.cpp:292-403 | chunk invariance: for every way of cutting a stream, the messages handled are those of the whole stream and the bytes held back are the unfinished message's prefix |
| BoeFraming.BoeSession.ReceiveSent | src/oe/BATS/BOE20Session.cpp:292-403 | what was sent arrives: the stream of any bodies with their prefixes written out byte by byte, cut anywhere, is handed over as exactly those messages with nothing held back, and garbage after them ends the connection |
| BoeFraming.FramesParse | src/oe/BATS/BOE20Session.cpp:378-396 | that stream is well formed and parses into exactly its messages |
| BoeFraming.ParseInvertsConcat | src/oe/BATS/BOE20Session.cpp:386-396 | the framing finds exactly the messages that were concatenated |
| BoeFraming.ConcatInvertsParse | src/oe/BATS/BOE20Session.cpp:386-396 | the messages found and the unfinished rest make up the stream again |
| BoeFraming.ParseAppend | src/oe/BATS/BOE20Session.cpp:292-403 | parsing in two instalments from any cut equals parsing at once |
| BoeFraming.ChunkLengthBoundReadsPast | src/oe/BATS/BOE20Session.cpp:347-351 | a concrete chunk on which the copy bounded by the whole chunk length leaves the chunk |
| PcapMux.PcapFileMux.constructor | src/net/i01_net/PcapFileMux.hpp:142-150 | every reader starts with at most one packet queued and nothing dispatched, for any latencies, negative ones too |
| PcapMux.PcapFileMux.InitialReaderLoad | src/net/i01_net/PcapFileMux.hpp:142-150 | one packet per reader is queued, its first, if it has one |
| PcapMux.PcapFileMux.PacketsFromReader | src/net/i01_net/PcapFileMux.hpp:152-171 | the reader's next packet is queued with the latency added; frames of other protocols are skipped; a read error ends the reader |
| PcapMux.PcapFileMux.Top | src/net/i01_net/PcapFileMux.hpp:81-93 | an earliest queued packet |
| PcapMux.PcapFileMux.ReadNextPacket | src/net/i01_net/PcapFileMux.hpp:173-204 | dispatches an earliest queued packet after its due ticks and refills from its reader, keeping the whole trace valid: nothing lost, repeated or reordered within a reader, exact ticks, and with ordered files a time-sorted interleaving |
| PcapMux.PcapFileMux.PopAndRefill | src/net/i01_net/PcapFileMux.hpp:194-198 | the queue keeps at most one packet per reader and nothing earlier than the one dispatched |
| PcapMux.PcapFileMux.Deliver | src/net/i01_net/PcapFileMux.hpp:183-192 | the ticks due come before the packet |
| PcapMux.PcapFileMux.UpdateTimers | src/net/PcapFileMux.cpp:31-55 | the loop fires one tick for each whole second since the last tick and leaves the timer there |
| PcapMux.PcapFileMux.EmptyQueueMeansDone | src/net/i01_net/PcapFileMux.hpp:173-204 | when the queue is empty every packet of every file has been dispatched, once and in file order |
| PcapMux.PcapFileMux.ReadPackets | src/net/PcapFileMux.cpp:10-23 | terminates, keeping what was dispatched before and dispatching as many packets as counted (the last attempt may find none), and stops only at its limit or with everything dispatched |
| PcapMux.PcapFileMux.ReadPacketsUntil | src/net/PcapFileMux.cpp:25-29 | what was dispatched before stays; with ordered files the only packet at or after the stop time dispatched is the last one, and there is one unless all is dispatched |
| PcapMux.YieldInOrder | src/net/i01_net/PcapFileMux.hpp:208-213 | adding a reader's latency, of either sign, keeps its packets in order |
| PcapMux.YieldAsCaptured | src/net/i01_net/PcapFileMux.hpp:152-213 | a reader yields its UDP frames before the first read error, in order, each with its own payload at its own time plus the latency, or 2^64 ns more if that is negative |
| PcapMux.PcapFileMux.DispatchedAsCaptured | src/net/i01_net/PcapFileMux.hpp:152-213 | in every state the packets dispatched from a reader are the first of its UDP frames, with their own payloads at their own times plus its latency |
| PcapMux.PcapFileMux.TicksAtWholeSeconds | src/net/PcapFileMux.cpp:31-55 | the ticks fell one, two, ... whole seconds after the instant the timer started from and, with ordered files, as many as whole seconds have passed |
| PcapMux.TraceStep | src/net/PcapFileMux.cpp:31-55 | one packet with its ticks keeps the trace valid |
| PcapMux.TicksStayExact | src/net/PcapFileMux.cpp:31-55 | ticks fall at exactly one, two, … seconds after the first dispatched time whose seconds are not zero |
| PcapMux.StaysWellInterleaved | src/net/PcapFileMux.cpp:31-55 | each tick comes after every earlier packet and before every packet at or after it |
| L2Sim.L2SimSession.constructor | src/oe/L2SimSession.cpp:10-33 | starts with no time, an empty queue, an empty book and an empty order manager, for any latencies |
| L2Sim.L2SimSession.Send | src/oe/L2SimSession.cpp:35-90 | the whole new state: refused without a time, for unsupported orders or unknown symbols; otherwise the arrival is due one acknowledgement latency later; every account stays in balance |
| L2Sim.L2SimSession.Cancel | src/oe/L2SimSession.cpp:92-116 | the whole new state: refused for an unknown symbol or a quantity that does not shrink; otherwise the request is due one cancel latency later; only an accepted request touches the order |
| L2Sim.L2SimSession.Notify | src/oe/L2SimSession.cpp:393-396 | listeners may send and cancel in a callback; what they ask is done and scheduled in order |
| L2Sim.L2SimSession.OnOrderSent | src/oe/L2SimSession.cpp:425-597 | the whole new state: the order is registered, its reports are scheduled by the branch its terms and the market select, it rests on a free spot or nowhere, and what it met is remembered; what is filled, cancelled and newly on the book is all of the order, if and only if no other order waits for the same auction at its price |
| L2Sim.L2SimSession.OnOrderAcknowledged | src/oe/L2SimSession.cpp:599-605 | the order manager acknowledges the whole size, then its listeners' requests are scheduled; nothing else changes |
| L2Sim.L2SimSession.OnOrderFilled | src/oe/L2SimSession.cpp:607-625 | the fill is reported, the listeners asked, and the order forgotten exactly when nothing is open |
| L2Sim.L2SimSession.OnOrderPendingCancel | src/oe/L2SimSession.cpp:629-672 | the request is refused unless the order is registered, in a cancellable state and reduced by an amount other than zero; the amount of a whole cancel is whatever the erased entry's memory holds |
| L2Sim.L2SimSession.TakeOff | src/oe/L2SimSession.cpp:631-671 | what is taken off the book and what is answered |
| L2Sim.L2SimSession.OnOrderCancelRejected | src/oe/L2SimSession.cpp:674-677 | the refusal is reported and the listeners asked |
| L2Sim.L2SimSession.OnOrderCancelled | src/oe/L2SimSession.cpp:679-696 | the cancel is reported, the listeners asked, and the order forgotten exactly when it was cancelled in full |
| L2Sim.L2SimSession.CrossOnce | src/oe/i01_oe/L2SimSession.hpp:462-516 | one round: the order at the spot is filled up to what is available if its price is good enough and nothing is ahead of it, and erased when nothing remains; every account stays in balance |
| L2Sim.L2SimSession.CrossHelper | src/oe/i01_oe/L2SimSession.hpp:449-516 | the loop over a container does its rounds in price order; the shares it reports crossed are those the new fills carry and those the orders lost |
| L2Sim.L2SimSession.FillByExecution | src/oe/i01_oe/L2SimSession.hpp:361-377 | the rounds for one order end with the whole of it filled, whatever was executed |
| L2Sim.L2SimSession.ExecCross | src/oe/i01_oe/L2SimSession.hpp:355-378 | the loop over a container stops at the first order whose price is not good enough; shares ahead are used up, fills are not; every account stays in balance |
| SimCrossing.CrossConserves | src/oe/i01_oe/L2SimSession.hpp:449-516 | a trade is shared out without loss: what the new fills carry is what the orders lose and what is no longer available, never more than the trade |
| SimCrossing.CrossInPriceOrder | src/oe/i01_oe/L2SimSession.hpp:449-516 | price priority: an order trades only if every order before it at a good enough price, with nothing ahead of it, was filled in full |
| SimCrossing.RoundReports | src/oe/i01_oe/L2SimSession.hpp:462-516 | one round schedules exactly a fill at the price of the trade for all the order can get, and when remainders are cancelled a cancel of the rest, although the order keeps its entry with those shares |
| SimCrossing.ExecFillsIff | src/oe/i01_oe/L2SimSession.hpp:355-378 | an execution fills exactly the orders whose price, and that of all before them, is good enough, as long as fewer shares are ahead of them all than were executed; the others are left alone |
| SimCrossing.ExecWithinIff | src/oe/i01_oe/L2SimSession.hpp:355-378 | an execution gives an order no more than the shares left for it if and only if none are left or the order is no larger; otherwise it still fills all of it |
| SimCrossing.OneShareFillsAll | src/oe/i01_oe/L2SimSession.hpp:361-377 | an input on which one executed share fills an order of 100 |
| SimCrossing.ExecConserves | src/oe/i01_oe/L2SimSession.hpp:355-378 | the fills of an execution carry exactly what the orders of the container lose |
| L2Sim.L2SimSession.Dispatch | src/oe/L2SimSession.cpp:397-417 | each kind of event has the whole effect of its handler, for some value of erased memory |
| L2Sim.L2SimSession.Service | src/oe/L2SimSession.cpp:387-421 | a next event in (time, index) order leaves the queue and the others stay, the clock is at exactly its time, its handler has its whole effect, nothing is forgotten, and the measure (time to go, events now) shrinks |
| L2Sim.L2SimSession.UpdateTs | src/oe/L2SimSession.cpp:384-423 | with latencies above zero: terminates in a state the service loop reaches from the old one; every event that was queued with an earlier time has been delivered, each delivery between the old time and the packet's; sending times, arrivals and orders are kept, and only orders the listeners asked to cancel are touched |
| L2Sim.L2SimSession.OnPacket | src/oe/L2SimSession.cpp:373-381 | the same, and the packet's market data is seen only afterwards: orders that arrived met the market before it |
| L2Sim.L2SimSession.DeliveredInOrder | src/oe/L2SimSession.cpp:384-423 | in every state: deliveries are in time order, every event ever scheduled before now has been delivered exactly as often as it was scheduled, and none is queued in the past |
| L2Sim.L2SimSession.ImmediateOrdersCloseIff | src/oe/L2SimSession.cpp:520-597 | in every state of every closed-loop run, whatever the latencies: an immediate order none of whose cancel requests was accepted has filled + cancelled equal to its size once none of its events are queued, and is closed if and only if cancels are not faster than acknowledgements or it did not trade in part against the market it met; otherwise its cancelled shares stay open |
| L2Sim.L2SimSession.SettledByDeadline | src/oe/L2SimSession.cpp:520-597 | none of its events are queued once the clock is past sending time + acknowledgement latency + the larger latency |
| SimRuns.SentOrderClosesIff | src/oe/L2SimSession.cpp:35-696 | from the send on: if an accepted immediate order is not asked to be cancelled, moving the clock past its deadline delivers everything about it, fills or cancels its whole size, and closes it if and only if cancels are not faster than acknowledgements or it did not trade in part against the market it was sent into |
| SimRuns.HandledGood | src/oe/L2SimSession.cpp:397-417 | every handler keeps every account in balance and time in order, and forgets no order, event, delivery or sending time |
| SimRuns.RanGood | src/oe/L2SimSession.cpp:384-423 | the same for the whole loop, whichever order ties are broken in and whatever erased memory holds; what was due has been delivered |
| SimExchange.ImmediateClosesIff | src/oe/L2SimSession.cpp:520-597 | for every immediate order, market and latencies, and every order in which the priority queue may deliver its reports: it ends closed if and only if cancels are not faster than acknowledgements or it did not trade in part on arrival |
| SimExchange.ImmediateIsDisposed | src/oe/L2SimSession.cpp:520-597 | for every order, market and book: an immediate order never rests and its reports dispose of its whole size, the acknowledgement first unless a faster cancel is due before it |
| SimExchange.ArrivalAccounts | src/oe/L2SimSession.cpp:425-597 | for every order, market and phase: the shares its reports fill and cancel, and those left to rest, are exactly its size; it is acknowledged exactly if it trades or rests |
| SimExchange.ArrivalPrices | src/oe/L2SimSession.cpp:520-597 | every report is due one latency after the arrival; every fill carries the other side's best price, which is no worse than the limit, and no more than there is at it |
| SimExchange.ArrivalTradesInFull | src/oe/L2SimSession.cpp:520-597 | with a market and a free price an order trades all it can at a price within its limit, and rests exactly if it is a limit order that may and has shares left, so what rests never crosses what is left of the market |
| SimExchange.ArrivalWithoutMarket | src/oe/L2SimSession.cpp:520-597 | without a market, or with its price taken, an order is cancelled in full |
| SimExchange.AuctionArrival | src/oe/L2SimSession.cpp:470-518 | an auction order waits in full if its auction is still ahead, and is cancelled otherwise |
| SimExchange.AheadUntilItsHour | src/oe/L2SimSession.cpp:470-493 | the opening auction is ahead until the market opens, the closing one until it closes |
| SimExchange.ArrivalRests | src/oe/L2SimSession.cpp:495-591 | a resting order is on its own side of its own instrument, in the container of its auction if it has one, at its own price |
| SimExchange.ArrivedAccountsIff | src/oe/L2SimSession.cpp:425-597 | an arrival loses no share if and only if no other order waits for the same auction at its price; nothing else in the book changes, and the order is registered |
| SimExchange.CancelRequested | src/oe/L2SimSession.cpp:92-116 | a cancel goes out exactly if the manager lets it, the symbol is known and the quantity is below the size, and is due one cancel latency later |
| SimExchange.CancelAnswers | src/oe/L2SimSession.cpp:629-672 | a request for part of what rests takes it off and is granted; one for more, or for an order that is unknown or has come to an end, is refused and changes nothing |
| SimExchange.CancelLeavesNewQtyIff | src/oe/i01_oe/L2SimSession.hpp:335-353 | what rests after a cancel is the quantity asked for if and only if that is nothing, or half of what rested |
| SimExchange.ForgottenIff | src/oe/L2SimSession.cpp:607-696 | the exchange forgets an order exactly when a fill leaves none of it open or a cancel takes its whole size at once |
| SimRuns.SentOrder | src/oe/L2SimSession.cpp:35-90 | an accepted send leaves a live order that arrives one acknowledgement latency later; a refused one a locally rejected order and nothing scheduled |
| SimEvents.SinceMidnightOfDay | src/oe/L2SimSession.cpp:604-604 | the exchange time of a report is the nanoseconds of its day |
| SimBooks.ReportKeeps | src/oe/L2SimSession.cpp:599-696 | a delivered report leaves every order's account in balance |
| SimBooks.ArrivalKeeps | src/oe/L2SimSession.cpp:425-597 | an arrival leaves every order's account in balance |
| SimExchange.ReduceTakes | src/oe/i01_oe/L2SimSession.hpp:335-353 | the reduction touches one spot and takes what was asked for, or all of it, or nothing |
| SimExchange.ReduceReportsIff | src/oe/i01_oe/L2SimSession.hpp:335-353 | the reported amount is what was taken off the book, whatever the erased memory holds, if and only if the order was not resting there to be taken whole |
| SimExchange.WholeCancelMayBeRefused | src/oe/i01_oe/L2SimSession.hpp:340-342 | an input on which a whole cancel takes the order off the book and reports nothing |
| SimEvents.SettledIsClosed | src/oe/OrderManager.cpp:258-358 | a balanced ledger with no events left means the order is closed |
| SimEvents.FillKeepsLedger | src/oe/OrderManager.cpp:258-274 | a fill, in either order with a cancel due at the same time, keeps the ledger in balance |
| SimEvents.CancelKeepsLedger | src/oe/OrderManager.cpp:340-358 | a cancel, in either order with a fill due at the same time, keeps the ledger in balance |
| SimEvents.AckKeepsLedger | src/oe/OrderManager.cpp:201-210 | an acknowledgement opens exactly what is scheduled |
| SimEvents.ReportKeepsBalance | src/oe/OrderManager.cpp:201-358 | a delivered report keeps an order's balance, in time or late |
| SimEvents.LateAck | src/oe/OrderManager.cpp:201-210 | an acknowledgement after the cancel opens the cancelled shares again |
| SimEvents.SettledClosedIff | src/oe/OrderManager.cpp:258-358 | with nothing left to deliver the order is closed, or, when its cancel overtook its acknowledgement, open by its cancelled shares |
| SimEvents.DeliveredClosesIff | src/oe/L2SimSession.cpp:387-421 | delivering a queue of one order's reports in any order the priority queue may yield ends closed exactly if its balance is not the late one |
| Position.PnlIdentity | src/oe/Position.cpp:32-178 | from any opening quantity, through entries, exits, reversals and marks: realized plus unrealized is the net cash flow plus the shares held, counted from the fills, at the last price told, plus the fees on exits, which the source does not book and which are zero when fees are |
| Position.HoldingsFromMoves | src/oe/Position.cpp:32-178 | the mark is the price of the last fill or mark, and the quantity what was bought less what was sold |
| Position.RealizesOnlyExits | src/oe/Position.cpp:41-98 | a fill that adds to the position realizes nothing, one that leaves part of it keeps the average price, one that reverses it starts from its own price |
| Position.BookAfterAll | src/oe/Position.cpp:32-98 | every fill moves realized profit less the cost of the holdings by exactly its cash |
| Position.VwapStaysInBand | src/oe/Position.cpp:32-98 | from a flat start without fees the average price stays between the lowest and highest entry price since the position was last flat or reversed |
| Position.Position.UpdatePnl | src/oe/Position.cpp:32-98 | the in-place update is the move of the book of profit and loss |
| Position.Position.Bought | src/oe/Position.cpp:32-98 | entering, leaving and reversing through a buy |
| Position.Position.Sold | src/oe/Position.cpp:32-98 | entering, leaving and reversing through any other side |
| Position.Position.OnUpdateMark | src/oe/Position.cpp:174-178 | the new mark revalues the holdings only |
| EquityInstrument.Instrument.Validate | src/oe/EquityInstrument.cpp:8-96 | accepts exactly the orders all limits allow, records them, takes the locates a sell needs and corrects its side |
| EquityInstrument.Instrument.RateHolds | src/oe/EquityInstrument.cpp:10-25 | over the whole history any closed one-second window holds at most the limit of accepted orders |
| EquityInstrument.Instrument.RateAllowsIff | src/oe/EquityInstrument.cpp:10-25 | the rate limit lets an order through exactly when fewer than the limit were accepted in the closed second that ends with it |
| EquityInstrument.PartialFillsStayWithin | src/oe/EquityInstrument.cpp:27-62 | however much of an accepted order is done, size, price, value and position stay inside the limits |
| EquityInstrument.LimitsInclusive | src/oe/EquityInstrument.cpp:27-62 | an order exactly at every limit is accepted |
| EquityInstrument.LocatesCoverShortIff | src/oe/EquityInstrument.cpp:65-75 | the locates taken are exactly the shares that would be short once all open sells are done, if and only if those are fewer than 2^32 |
| EquityInstrument.Instrument.ExpireOld | src/oe/EquityInstrument.cpp:10-25 | the queue is the accepted history restricted to the last second |
| EquityInstrument.Instrument.RecordAccepted | src/oe/EquityInstrument.cpp:91-94 | the accepted order joins the history and the queue alike |
| EquityInstrument.Instrument.CheckLimits | src/oe/EquityInstrument.cpp:27-62 | the limits that need no history |
| EquityInstrument.Instrument.TakeLocates | src/oe/EquityInstrument.cpp:63-90 | locates are taken exactly when there are enough, for the shares that would leave the position short |
| EquityInstrument.SpacedPush | src/oe/EquityInstrument.cpp:10-25 | accepting below the limit keeps every run of limit + 1 acceptances wider than a second |
| EquityInstrument.SpacedBoundsEverySecond | src/oe/EquityInstrument.cpp:10-25 | that spacing bounds the count in every closed second, wherever it starts |
| L2Book.FalseKeepsBest | src/md/i01_md/L2Book.hpp:93-133 | when `replace` returns false the best quote has not changed |
| L2Book.TrueTouchesBest | src/md/i01_md/L2Book.hpp:93-133 | when replace returns true the level is the best now, or was until it was deleted |
| L2Book.BestIsExtreme | src/md/i01_md/L2Book.hpp:82-90 | the best bid is the highest and the best ask the lowest, with the size and count of its level; an empty side's quote is no better than any price |
| L2Book.BookIsLastUpdates | src/md/i01_md/L2Book.hpp:93-133 | the book is the last update of each price that had a size |
| L2Book.BestQuoteUnique | src/md/i01_md/L2Book.hpp:82-90 | the best quote is determined by the levels alone |
| L2Book.First | src/md/i01_md/L2Book.hpp:83-83 | the first key is the best price |
| L2Book.Top | src/md/i01_md/L2Book.hpp:82-90 | returns the best level, or the empty quote of the side |
| L2Book.L2BookHalf.BestQuoteOf | src/md/i01_md/L2Book.hpp:82-90 | reads the best quote |
| L2Book.L2BookHalf.Replace | src/md/i01_md/L2Book.hpp:93-133 | one level changes; true exactly when the level is or was the best; the flags tell what happened to it |
| QuoteCache.L1EquitiesStrategy.OnEndOfData | src/ts/L1EquitiesStrategy.cpp:56-114 | at every packet end the cache of every symbol equals its book's best quotes; a symbol whose best changed since the previous one got exactly one callback and any other none, and every changed side was told with its new best |
| QuoteCache.L1EquitiesStrategy.OnL2Update | src/ts/L1EquitiesStrategy.cpp:47-54 | marks exactly that side, exactly when `replace` said so, and unmarked sides stay cached correctly |
| QuoteCache.L1EquitiesStrategy.OnBookEvent | src/ts/L1EquitiesStrategy.cpp:21-44 | marks exactly that side, always, and unmarked sides stay cached correctly |
| QuoteCache.L1EquitiesStrategy.Insert | src/ts/L1EquitiesStrategy.cpp:8-19 | the side becomes marked, every other mark stays, and each symbol keeps one entry |
| QuoteCache.L1EquitiesStrategy.Refresh | src/ts/L1EquitiesStrategy.cpp:57-110 | one symbol's quote and callback; no other symbol is touched |
| QuoteCache.PacketEndCallsExact | src/ts/L1EquitiesStrategy.cpp:56-114 | one callback for a symbol whose best changed, none otherwise; every changed side is told with its new best, and a one-sided call tells of no other change |
| QuoteCache.CallsOfSymbol | src/ts/L1EquitiesStrategy.cpp:69-112 | among all callbacks a symbol's are exactly those its own entry makes |
| QuoteCache.OwnCallsExact | src/ts/L1EquitiesStrategy.cpp:80-111 | an entry makes one right call if its best changed, none otherwise |
| QuoteCache.TimesOfChange | src/ts/L1EquitiesStrategy.cpp:80-111 | a changed side carries this packet's time, an unmarked side keeps its own, and every call carries this packet's time |
| QuoteCache.AllRefreshed | src/ts/L1EquitiesStrategy.cpp:56-114 | refreshing only the marked symbols makes the whole cache coherent |
| QuoteCache.EntryBecomesBest | src/ts/L1EquitiesStrategy.cpp:57-110 | refreshing the marked sides of a symbol makes its whole quote the best |
| Pricer.StockStats.UpdateFromEvent | src/ts/PricerStrategy.cpp:43-50 | after every event, in time order and through any interval resets: the loop and the closed form hold the sums of the quote in force over the whole seconds since the first event and since the interval began, and the average is the one decayed once a second by the quote in force |
| Pricer.StockStats.UpdateAll | src/ts/PricerStrategy.cpp:43-49 | the three updates, each on its own state |
| Pricer.StockStats.UpdateCountingStats | src/ts/PricerStrategy.cpp:191-216 | the loop adds the previous quote once per second elapsed |
| Pricer.StockStats.UpdateIntervalSpread | src/ts/PricerStrategy.cpp:242-271 | the closed form adds the same in one step |
| Pricer.StockStats.UpdateXmaStats | src/ts/PricerStrategy.cpp:168-189 | the decaying average after an event |
| Pricer.StockStats.GetIntervalSpread | src/ts/PricerStrategy.cpp:99-115 | reads the average of the quote in force over every second of the interval up to the reading; in its first second it is a division by zero |
| Pricer.StockStats.GetSpreadXma | src/ts/PricerStrategy.cpp:51-63 | reads the average decayed once a second up to the reading, if it is set |
| Pricer.StockStats.ResetIntervalSpread | src/ts/PricerStrategy.cpp:145-165 | a new interval starts at the reset with the quote in force; later events go on from there, the totals and the average unaffected |
| Pricer.SampleSumStep | src/ts/PricerStrategy.cpp:242-271 | one event adds the seconds since the previous one at that one's value, to a sum defined second by second |
| Pricer.SpreadSumIsAskLessBid | src/ts/PricerStrategy.cpp:195-210 | the accumulated spread is the accumulated ask less the accumulated bid |
| Pricer.SpreadIsFixed | src/ts/PricerStrategy.cpp:174-200 | the spread in dollars is the fixed-point one over 10000, negative exactly under a crossed quote |
| Pricer.AvailIsMeanIff | src/ts/PricerStrategy.cpp:201-201 | the size sampled is the mean of the two sides, rounded down, if and only if their sum does not wrap |
| Pricer.BlendIsEachSecond | src/ts/PricerStrategy.cpp:168-189 | the closed form with a power of the decay equals that many single-second updates |
| Pricer.DecayedStep | src/ts/PricerStrategy.cpp:168-189 | one event decays the previous quote into the average for the seconds since, as an average defined second by second does |
| Pricer.DecayedTail | src/ts/PricerStrategy.cpp:51-63 | reading ahead in closed form is decaying once a second |
| Pricer.SurvivesAt | src/ts/PricerStrategy.cpp:51-63 | for every average and decay at one second: reading equals updating then with any quote and reading, if and only if the average is set (or a second with zero decay has passed) and the reading is not negative |
| Pricer.EveryReadingSurvivesIff | src/ts/PricerStrategy.cpp:51-63 | for any decay between 0 and 1: at every later second and for every quote, reading equals updating and then reading, if and only if the average is set and the quote in force is not crossed, or nothing decays |
| Pricer.CrossedQuoteBreaksReading | src/ts/PricerStrategy.cpp:51-63 | an average that is set, read under a crossed quote, is lost by an update |
| Pricer.CrossedFirstQuoteBreaksReading | src/ts/PricerStrategy.cpp:168-189 | a crossed first quote leaves the average unset: the later reading is positive and an update still changes it |
| Pricer.AverageStaysNonNegative | src/ts/PricerStrategy.cpp:168-189 | with uncrossed quotes and a decay between 0 and 1 no reading is negative |
| Alphanumeric.Token.SetThenGet | src/core/i01_core/Alphanumeric.hpp:27-89 | the round trip for every width, base, padding and unsigned type: `set` succeeds exactly when the number is below base^width, and `get` then returns it although its multiplier wraps |
| Alphanumeric.Token.Set | src/core/i01_core/Alphanumeric.hpp:66-89 | true exactly when the number fits; the digits are written least significant first with the padding beyond them |
| Alphanumeric.Token.DigitsInMemory | src/core/i01_core/Alphanumeric.hpp:66-89 | in memory the least significant digit is the last one with padding on the left, the first one otherwise |
| Alphanumeric.Token.Get | src/core/i01_core/Alphanumeric.hpp:26-55 | zero for an invalid character, otherwise the token's value modulo the type's range |
| Alphanumeric.ReadsBack | src/core/i01_core/Alphanumeric.hpp:27-89 | reading inverts writing for every number that fits |
| Alphanumeric.LeftoverZero | src/core/i01_core/Alphanumeric.hpp:77-88 | the digit loop uses the number up exactly when it is below base^width |
| Alphanumeric.TokensDistinct | src/core/i01_core/Alphanumeric.hpp:66-89 | distinct numbers that fit have distinct tokens |
| Alphanumeric.SymbolsInOrder | src/core/i01_core/Alphanumeric.hpp:74-76 | the digits are the alphanumeric characters in the order of their codes |
| Alphanumeric.SixtyTwo | src/core/i01_core/Alphanumeric.hpp:66-89 | 62 is "10" in base 62 and "1Q" in base 36, the unused place padded |
| Alphanumeric.TallyStep | src/core/i01_core/Alphanumeric.hpp:36-53 | one round of the wrapping sum agrees with the unbounded value modulo the type's range |
| MappedRing.Run | src/core/MappedRing.cpp:44-73 | over any sequence of writes within the free space and reads within the size, the bytes read and left are those of a first-in first-out queue |
| MappedRing.MappedRing.constructor | src/core/MappedRing.cpp:11-36 | empty, with the capacity a power of two |
| MappedRing.MappedRing.Write | src/core/MappedRing.cpp:44-52 | the window lies inside the double mapping and its bytes join the queue, disturbing none queued |
| MappedRing.MappedRing.Read | src/core/MappedRing.cpp:54-67 | the oldest bytes come out in the order written, from one contiguous window |
| MappedRing.MappedRing.WriteAdvance | src/core/i01_core/MappedRing.hpp:31-38 | what the caller stored in the window is queued |
| MappedRing.MappedRing.ReadAdvance | src/core/MappedRing.cpp:59-67 | the oldest bytes leave; the offsets stay in range, read below capacity and write at most one capacity ahead |
| MappedRing.MappedRing.Clear | src/core/MappedRing.cpp:69-73 | empty again |
| Time.MakeKeepsInstant | src/core/i01_core/Time.hpp:22-27 | the constructor normalises and keeps the instant exactly when the nanoseconds are not negative; otherwise it is 2^64 ns late |
| Time.PlusMinusExact | src/core/i01_core/Time.hpp:29-66 | addition and subtraction are exact on normal timestamps and undo each other |
| Time.OrderIsInstant | src/core/i01_core/Time.hpp:131-153 | the comparisons order normal timestamps by instant |

## Left out

- Sockets, epoll, threads, timers of the operating system, memory mapping and its errors, compression, packet capture files, configuration, command-line parsing, logging and printing: input and output. Read errors of a capture and an unreadable log are kept as outcomes.
- Locks: each handler is one step. Only the log file's writers are interleaved.
- Floating-point rounding: prices, values and averages are reals.
- ReorderPcap.Pass1: assumes no memory or file error, on which the code returns -1; packet times are not before the epoch.
- BoeFraming.BoeSession.HandleRawBytes: is about streams in which every message is longer than its own length field, as the code asserts; message bodies are opaque.
- OrderManager.OrderManager.Send: the verdicts of the risk checks and of the session are parameters; firm risk, locates and listeners are not modelled in the handlers.
- OrderManager.OrderManager.OnFilled: the effect of a fill on the position and on locates is not part of the order table; the position is modelled on its own.
- OrderTable.ReplayRecovers: the exchange's order id, its last time stamp, the pending-cancel quantity, listeners and the session pointer are not recovered by the log and are excluded; instruments and sessions are those of the live run; sends do not overlap and each is of a new order; exchange callbacks concern orders whose send succeeded.
- OrderTable.AdoptOrphanSound: adoption logs in an order replay does not expect and is not part of the replay theorem.
- Restart.RestartRecovers: the byte layouts of record bodies are an arbitrary pair of packing functions that round-trip on the records of the log; all writes fit the file and have finished.
- PcapMux.PcapFileMux.ReadNextPacket: packet buffers are opaque, so the life time of a reader's buffer after its next read is not modelled; a packet is dispatched with its own bytes.
- PcapMux.PcapFileMux.constructor: latencies within a second of the smallest 64-bit value are excluded, where the code's own subtraction overflows.
- L2Sim.L2SimSession.OnOrderSent: the branch on the trading state is dead because its flag is set once and for all; size ahead and behind of a resting order, which never change a scheduled event there, are not kept.
- L2Sim.L2SimSession.CrossHelper: the list of the container's entries in its order and who has nothing ahead are parameters, since sizes ahead are not kept; there is one pool of available shares, where the auction crosses of single exchanges keep a second one for imbalance-only orders.
- L2Sim.L2SimSession.ExecCross: the sizes ahead are a parameter and a result; how market data changes them is left out.
- L2Sim.L2SimSession.Cancel: a request cannot name an order object outside the order table.
- L2Sim.L2SimSession.UpdateTs: packet times do not go back, and latencies are above zero; with a zero latency a listener that answers every report with a request keeps the loop at one moment for ever.
- SimBooks.ReportKeeps: the order manager inside the simulator is the table value, moved by the same functions its object form is proved against; the log is not kept there.
- EquityInstrument.Instrument.Validate: order creation times do not go back.
- Position: `update_remote_position` and manual adjustments, which change a quantity without a fill; open-order exposure counters, which are easy members.
- Pricer: the bid and ask averages, which repeat the spread's, and the resets of the decaying averages.
- QuoteCache: one exchange; the two-sided consolidated update of the national best quote.
- Time: `+=`, which borrows a second where it should carry one; no modelled code uses it.
- OUCH sessions, wire enumerations, buffer pools and address packing: easy members, or paths that bypass the log.
