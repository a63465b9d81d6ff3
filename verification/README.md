# Verified model of cpptrading

A Dafny model of the parts of cpptrading whose correctness depends on more than one function, with
proofs of what they promise together.

* **WebSocket endpoint** (`Frames.dfy`, `Endpoints.dfy`, `EndpointRuns.dfy`, `WireFormat.dfy`,
  `Delivery.dfy`, `RealWebSocket.dfy`). The frame format byte by byte, the receive loop with its reassembly
  and its replies, the life cycle, and two endpoints joined by byte channels. `Endpoints` is the endpoint as a
  state machine; the class `RealWebSocket` works in place on its buffers and every one of its methods
  is proved to do what the state machine does. The socket is replaced by the bytes it yields and takes,
  in any amounts, and by failures at any time; a callback is recorded, not run.
* **History and ledger** (`Models.dfy`, `Multimaps.dfy`, `Ranges.dfy`, `TradeSummaries.dfy`,
  `MemoryHistory.dfy`, `Synchronization.dfy`, `Ledger.dfy`, `Decisions.dfy`, `AllIn.dfy`,
  `AllInTimes.dfy`, `Broker.dfy`). A log with indexes beside it, the cursors that range over them, aggregates,
  synchronisation, and the chain of balances that the broker builds by reading the index it writes.
* **Order book** (`OrderBook.dfy`, `BookRuns.dfy`, `ArrivalOrder.dfy`, `StaleAnswers.dfy`, `Source.dfy`).
  Orders per id, marks, and the second thread that prunes; the steps of both threads interleave freely, down
  to single comparisons.
* **Rotating log** (`Names.dfy`, `Dates.dfy`, `RotatingLog.dfy`) and **lookup-table trigonometry**
  (`FastTrigo.dfy`).

`double` is modelled by `real`, and NAN in the sense of "absent" by `Option`. `std::vector` fields are
`seq` fields that the methods reassign. A `std::multimap` is the sequence of its entries in iteration
order. Clock readings, the local date at a time, and the results of `recv` and `send` are parameters.

Many lemma bodies `hide` a definition they do not need; nothing is hidden in a contract.

## What turned out not to hold as one would wish

* A frame length near 2^64 makes `header_size + N` wrap, and the test for an incomplete frame then
  passes (`Frames.WrappedComparison` says exactly when, `Frames.OverrunExample` gives such bytes). For a data
  frame or a PING the original then goes on outside its buffer. For a PONG, a CLOSE and an unknown opcode
  only the removal at the end is wrong; if the sum is exactly 2^64 it removes nothing, and the loop does not
  end. The model stops the loop and reports it (`Overrun`). Between two endpoints of this code it never
  happens (`Delivery.EndToEnd`).
* A message that was accepted can be lost although nothing fails: an endpoint that closes flushes its CLOSE
  and closes its socket without waiting for the other side (`Delivery.LostOnClose`).
  `Delivery.DeliveryPossible` says exactly when what was accepted can still arrive.
* A lookup of a deleted order id, outside the time window, can answer with an order that is neither the
  right one nor the zero order: when an order is fed late (`ArrivalOrder.StaleAnswer`), or when the clock
  moves while the orders of the id are being compared (`ArrivalOrder.TornAnswer`).
  `StaleAnswers.OrderedNeverStale` and `StaleAnswers.SpacedNeverStale` say exactly for which orders of
  arrival it cannot, the first if the clock stands still during a prune, the second on all runs.
* With a trade, the order on the buying side is forwarded if that on the selling side was found
  (`Sources.ForwardsFound` says when that is right, `Sources.ForwardingFails` gives a run for each way it is
  not).
* The balance lookup finds the latest balance at or before a time exactly when no two changes have that
  very time (`MemoryHistories.LookupIsLatest`); with several it finds the first one fed
  (`MemoryHistories.LookupFinds` says so for any order of feeding). So a third decision at one time builds on
  the first, and what the second did is lost (`Ledgers.SameTimeExample`). The ledger is right at all times
  exactly when the passed decisions come in strict order (`Ledgers.LedgerSnapshot`).
* The second count returned by `synchronize_with` is the number of trades that were missing exactly when
  the argument history holds no shared trade twice (`Synchronization.CountsAreDifferences`).
* A decision can spend more than there is: only the balance it builds on is asked for. After that nothing at a
  later time passes any more, a SELL that would pay the debt included (`DecisionRuns.DebtIsFinal`).
* An all-in SELL sells the stock divided by the price, not the stock (`AllInRuns.AllInSellExamples`). Over any
  run of all-in decisions no balance goes negative exactly when every passed SELL is at a price of at least 1,
  and then every passed SELL sells out exactly when all are at a price of 1 (`AllInRuns.AllInSound`).
* Two all-in BUYs can pass without a SELL between them, when the second comes at an earlier time
  (`AllInTimes.TwoBuys`) or is the third trade at one time (`AllInTimes.TwoBuysTied`).
  `AllInTimes.AlternationExactly` says exactly at which times of decisions this cannot happen. Commissions
  can decrease too, since a late decision builds on an earlier balance (`AllInTimes.BelowRise`,
  `AllInTimes.BelowDip`, `AllInTimes.BelowTwoRises`); `AllInTimes.CommissionExactly` says exactly at which
  times, in any order, they cannot.
* The source comment for the close frame calls its last four bytes a masking key: a CLOSE is sent masked
  with a zero key even by an endpoint that does not mask (`EndpointRuns.MaskedCloseExample`).
  `EndpointRuns.MaskingExactly` says when all frames are masked as the endpoint was told to.
* File names with a date need not sort in the order of time: the year 10000 comes before 2024, but 30000
  after it (`Dates.FiveDigitYears`). They do exactly when the years have equally many digits, or the earlier
  one is at most the leading digits of the later one (`Dates.SuffixOrder`). What a rotating log reads back
  is what was appended exactly when no name used a rotation interval or more later sorts before
  (`RotatingLogs.ReadsBackExactly`), which within four-digit years means that local time never steps back
  that far (`RotatingLogs.NamesAndDates`).
* The lookup tables are centred half a step early. With rounding toward zero that makes the error at most
  pi / N below zero (`FastTrigo.NegativeErrorBound`), but above zero only below 3 pi / N
  (`FastTrigo.ErrorBound`).

## Model

| member | source | states |
|---|---|---|
| Frames.MaskedTwice | src/network/easywsclient.cpp:412-417 | masking with the same key twice gives back the payload (section 5.3 of RFC 6455) |
| Frames.MaskedFirst | src/network/easywsclient.cpp:412-417 | the first octet meets the first of the key, and the rest the key turned by one |
| Frames.MaskedKey | src/network/easywsclient.cpp:412-417 | a key masked with itself is zero |
| Frames.HeaderLength | src/network/easywsclient.cpp:271-299 | encoder and decoder agree on length form, mask bit and payload length for every frame |
| Frames.ParseEncode | src/network/easywsclient.cpp:265-323 | decoding an encoded frame followed by any bytes yields that frame and its exact size, for every length form, mask key, FIN and reserved bits |
| Frames.ParseSound | src/network/easywsclient.cpp:265-323 | whatever the decoder accepts is the encoding of the frame it reports |
| Frames.ParseExact | src/network/easywsclient.cpp:265-323 | the decoder accepts a frame if and only if the buffer begins with its encoding |
| Frames.ParseExtend | src/network/easywsclient.cpp:269-312 | a verdict on the head of the buffer never changes when more bytes arrive |
| Frames.WrappedComparison | src/network/easywsclient.cpp:312 | the 64-bit comparison means "incomplete" exactly when the sum does not wrap |
| Frames.OverrunExample | src/network/easywsclient.cpp:288-312 | ten bytes for which it wraps |
| Frames.ShortestEncoding | src/network/easywsclient.cpp:369-408 | sendData uses the shortest of all encodings of a payload (section 5.2 of RFC 6455) |
| Frames.CloseFrameBytes | src/network/easywsclient.cpp:420-426 | the six literal bytes of close() are a well-formed CLOSE frame |
| Frames.PrefixFrames | src/network/easywsclient.cpp:265-340 | a stream of frames that is a prefix of another is one frame by frame |
| Frames.UniqueFrames | src/network/easywsclient.cpp:265-340 | a byte stream is the encoding of at most one list of frames |
| WireFormat.FrameOctets | src/network/easywsclient.cpp:369-417 | every frame encoded is, octet by octet, as section 5.2 of RFC 6455 lays it out |
| WireFormat.WireUnique | src/network/easywsclient.cpp:369-417 | that layout determines the bytes |
| WireFormat.ParseWire | src/network/easywsclient.cpp:265-323 | the decoder takes a frame from a buffer if and only if the buffer begins with that layout of it |
| WireFormat.SentOctets | src/network/easywsclient.cpp:342-418 | what send, sendBinary and sendPing put on the wire: first octet, length form, key and masked payload, for every message |
| WireFormat.CloseOctets | src/network/easywsclient.cpp:359-426 | what close puts there, and that nothing sends once CLOSING or CLOSED |
| WireFormat.OneFrame | src/network/easywsclient.cpp:265-340 | what dispatching one frame does, for every first octet, key, payload below 126 and state: opcodes 0, 1 and 2 are data, 9 is answered by a PONG, 10 by nothing, every other by a CLOSE |
| WireFormat.FragmentedMessage | src/network/easywsclient.cpp:316-328 | a text or binary message in any number of fragments, in whatever pieces, is called back once and whole, and nothing is answered |
| WireFormat.TwoFragments | src/network/easywsclient.cpp:316-328 | the same for two fragments, byte by byte |
| WireFormat.MaskedHello | src/network/easywsclient.cpp:265-328 | the masked example of section 5.7 of RFC 6455 is called back as Hello |
| Endpoints.ReassemblyConserves | src/network/easywsclient.cpp:316-328 | messages and pending bytes are all data payloads in order, and there is one message per data frame with FIN |
| Endpoints.ControlFramesAreTransparent | src/network/easywsclient.cpp:316-336 | a control frame inserted anywhere changes no message (section 5.4 of RFC 6455) |
| Endpoints.DispatchFrames | src/network/easywsclient.cpp:265-340 | dispatching the encoding of any list of frames handles exactly those frames and leaves exactly the undecodable rest |
| Endpoints.HandleAllEffect | src/network/easywsclient.cpp:314-338 | callbacks are those of the reassembly, replies those prescribed: one PONG per PING while OPEN, one CLOSE, then nothing |
| Endpoints.DispatchMeetsSpecification | src/network/easywsclient.cpp:265-340 | both together, on a fresh connection and for every list of frames |
| Endpoints.DispatchThenReceive | src/network/easywsclient.cpp:265-340 | an extra dispatch before more bytes arrive makes no difference |
| Endpoints.ChunkingIndependence | src/network/easywsclient.cpp:265-340 | two chunks dispatched one by one end in the same complete state as both at once |
| Endpoints.AnyChunking | src/network/easywsclient.cpp:265-340 | the same for a stream cut into any number of chunks |
| EndpointRuns.StepKeeps | src/network/easywsclient.cpp:183-426 | every call keeps the invariant of both streams, and adds exactly the submitted messages to the outgoing one |
| EndpointRuns.RunKeeps | src/network/easywsclient.cpp:183-426 | so does every run, whatever the socket does |
| EndpointRuns.StepProgress | src/network/easywsclient.cpp:223-242 | the ready state only moves forward; closing by flush happens only with an empty txbuf in CLOSING |
| EndpointRuns.RunProgress | src/network/easywsclient.cpp:183-426 | over any run no history is rewritten and nothing is accepted after leaving OPEN |
| EndpointRuns.OutgoingStream | src/network/easywsclient.cpp:359-426 | bytes sent and txbuf are uniquely readable as whole frames, with at most one CLOSE frame, which is last |
| EndpointRuns.CleanClose | src/network/easywsclient.cpp:239-242 | a connection that closes by flush has sent all it accepted, a CLOSE frame last |
| EndpointRuns.PollOutcome | src/network/easywsclient.cpp:183-243 | what one poll comes to, field by field: bytes received behind, bytes sent off the front, CLOSED after a failed recv or send or after a flush in CLOSING, and nothing else |
| EndpointRuns.RunConducts | src/network/easywsclient.cpp:265-426 | over any run all frames but CLOSE are masked as told, whoever handled a CLOSE has left OPEN, and, short of a lost connection, whoever left OPEN has accepted a CLOSE |
| EndpointRuns.MaskingExactly | src/network/easywsclient.cpp:359-426 | over any run all accepted frames are masked as told exactly if the endpoint masks or has accepted no CLOSE, which shows in its ready state |
| EndpointRuns.MaskedCloseExample | src/network/easywsclient.cpp:420-426 | an endpoint that does not mask, and sends a masked frame |
| Delivery.TraceKeeps | src/network/easywsclient.cpp:183-426 | on every interleaving of two endpoints the channels hold exactly the bytes in between |
| Delivery.HandledPrefix | src/network/easywsclient.cpp:183-426 | the frames handled on one side are a prefix of those accepted on the other, and the rest is in buffers and channel |
| Delivery.EndToEnd | src/network/easywsclient.cpp:183-426 | callbacks are always a prefix of the messages submitted on the other side while OPEN, and all of them once every byte is delivered and dispatched; neither side ever meets a length that wraps |
| Delivery.SidesRun | src/network/easywsclient.cpp:183-426 | each side of an interleaving of two endpoints is a run of one endpoint |
| Delivery.ClosingHandshake | src/network/easywsclient.cpp:336-426 | once everything one side accepted is handled by the other and a CLOSE was among it, the other has left OPEN, and unless its connection was lost the last frame it accepted is a CLOSE (section 5.5.1 of RFC 6455) |
| Delivery.DeliveryPossible | src/network/easywsclient.cpp:183-243 | the outgoing stream of A can still be delivered in full exactly when A is not closed with bytes waiting and B is not closed with bytes waiting or on their way, and then by one poll of each and one dispatch |
| Delivery.LostOnClose | src/network/easywsclient.cpp:239-242 | a run without failures after which an accepted message never arrives, whatever happens later |
| RealWebSockets.Word64IsBigEndian | src/network/easywsclient.cpp:288-299 | the shifts and ors of the decoder compute the big-endian number |
| RealWebSockets.XorRange | src/network/easywsclient.cpp:412-417 | the in-place masking loop masks its range and leaves every other byte, so every earlier frame, unchanged |
| RealWebSockets.BuildHeader | src/network/easywsclient.cpp:368-408 | the assembled header is the header of the frame |
| RealWebSockets.AppendFrame | src/network/easywsclient.cpp:409-417 | what waits to be sent is followed by exactly the frame's encoding, masked where it lies |
| RealWebSockets.ReadHeader | src/network/easywsclient.cpp:268-311 | peeking reads the header fields without consuming, and stops only on an incomplete header |
| RealWebSockets.RealWebSocket.constructor | src/network/easywsclient.cpp:176-177 | a new endpoint is OPEN with empty buffers |
| RealWebSockets.RealWebSocket.SendData | src/network/easywsclient.cpp:359-418 | enqueues exactly the frame's encoding, or nothing after leaving OPEN |
| RealWebSockets.RealWebSocket.Close | src/network/easywsclient.cpp:420-426 | enqueues the CLOSE frame once and moves to CLOSING |
| RealWebSockets.RealWebSocket.Send | src/network/easywsclient.cpp:347-349 | sends a text frame |
| RealWebSockets.RealWebSocket.SendBinary | src/network/easywsclient.cpp:351-357 | sends a binary frame |
| RealWebSockets.RealWebSocket.SendPing | src/network/easywsclient.cpp:342-345 | sends an empty PING |
| RealWebSockets.RealWebSocket.HandleFrame | src/network/easywsclient.cpp:314-338 | in-place handling and removal of one frame is one step of the state machine |
| RealWebSockets.RealWebSocket.DispatchBinary | src/network/easywsclient.cpp:265-340 | the receive loop terminates in the state of the state machine, and stops early exactly at a length that wraps |
| RealWebSockets.RealWebSocket.ReceiveLoop | src/network/easywsclient.cpp:201-222 | the recv loop is a run of Recv steps and possibly a failure |
| RealWebSockets.RealWebSocket.SendLoop | src/network/easywsclient.cpp:223-238 | the send loop is a run of partial sends and possibly a failure |
| RealWebSockets.RealWebSocket.Poll | src/network/easywsclient.cpp:183-243 | one poll is a run of those steps and the final flush test, and changes the fields as `PollOutcome` says; a closed connection is left as it is |
| OrderBook.StepKeeps | src/sources/Source.hpp:48-119 | every atomic step, each comparison of a prune being one, keeps: losses only for deleted ids and outside the window, order and multiplicity of what is held, and the same for the survivors of a prune in progress |
| OrderBook.LogIsComplete | src/sources/Source.hpp:64-81 | the log is every order appended, whatever interleaves |
| OrderBook.ClockAndMarks | src/sources/Source.hpp:49-80 | the clock is the latest timestamp fed; the deleted ids are those marked |
| OrderBook.NothingRecentIsLost | src/sources/Source.hpp:98-119 | undeleted ids keep their full list, deleted ones an order-preserving subsequence with every order of the window |
| OrderBook.LatestIsFirst | src/sources/Source.hpp:35-46 | a lookup gives the latest order at or before a time, the first appended among equals, else the zero order |
| OrderBook.CleanupInvisible | src/sources/Source.hpp:35-46 | on every interleaving a lookup differs from that in the full log only for deleted ids and outside the window, and the caller can tell from the answer |
| OrderBook.AfterCleanup | src/sources/Source.hpp:102-118 | when a prune ends, all that is held was in the window when it began, all that is in the window now is held, and if the clock stood still the book is the log restricted to the window and answers with the zero order outside it |
| StaleAnswers.OrderedNeverStale | src/sources/Source.hpp:35-119 | if the clock stands still during each prune of an id, no lookup on any run is neither right nor zero, exactly when the orders of the id are fed in time order |
| StaleAnswers.SpacedNeverStale | src/sources/Source.hpp:35-119 | the same on all runs, exactly when different orders are also at least a window apart |
| ArrivalOrder.LateIsStale | src/sources/Source.hpp:64-119 | the run that goes wrong for any order fed late |
| ArrivalOrder.CloseIsStale | src/sources/Source.hpp:102-118 | the run that goes wrong for any two orders less than a window apart |
| ArrivalOrder.StaleAnswer | src/sources/Source.hpp:35-119 | one such run in full: two feeds, a trade, a mark and a prune |
| ArrivalOrder.TornAnswer | src/sources/Source.hpp:98-119 | one such run in full, in which the clock moves between two comparisons |
| Sources.Source.constructor | src/sources/Source.hpp:17-24 | an empty book with a window of 60 seconds |
| Sources.Source.RetrieveOrder | src/sources/Source.hpp:35-46 | the scan computes the lookup |
| Sources.ForwardsFound | src/sources/Source.hpp:54-62 | exactly the orders found are forwarded if and only if both or none were found |
| Sources.ForwardedOrders | src/sources/Source.hpp:35-62 | an order forwarded with a trade is the zero order, or the latest one held for one of its two ids that is not newer than the trade |
| Sources.ForwardingFails | src/sources/Source.hpp:48-63 | a run in which a found buy order is not forwarded, and one in which the zero order is |
| Sources.Source.FeedTrade | src/sources/Source.hpp:48-63 | moves the clock, looks up both orders, and feeds every history the trade and the orders to forward |
| Sources.Source.FeedOrder | src/sources/Source.hpp:64-74 | moves the clock and appends |
| Sources.Source.Puke | src/sources/Source.hpp:75-81 | feeds an unknown order, then marks its id |
| Sources.Source.CleanupOne | src/sources/Source.hpp:102-118 | one iteration of the cleanup is a run of one comparison per order held, whatever other threads feed in between |
| Sources.PruneTrims | src/sources/Source.hpp:102-118 | a prune, whatever the clock does during it, leaves of its id's list an ordered part, all newer than the window at its start, with everything newer than the window at its end; exactly the window if the clock stood still; and no empty list |
| Sources.CleanupTrims | src/sources/Source.hpp:98-119 | so does a cleanup for all the ids it visits, and it leaves all others as they were |
| Sources.Source.Cleanup | src/sources/Source.hpp:98-119 | visits exactly the deleted ids, in ascending order; each keeps what is newer than the window and is gone if that is nothing, every other id keeps its whole list |
| Multimaps.IndexIsStableSort | src/history/MemoryHistory.hpp:19-23 | inserting entries one by one sorts them by key, equal keys in insertion order |
| Multimaps.StableSortUnique | src/history/MemoryHistory.hpp:19-23 | stable sorting has one result only |
| Multimaps.IndexRange | src/range/SortedRange.hpp:22-49 | a half-open range of the index is the stable sort of that range of the log, and nothing else is |
| Ranges.FilterTwice | src/range/Range.hpp:115-142 | filtering twice is filtering by the conjunction, in the same order |
| Ranges.FilterCounts | src/range/Range.hpp:115-142 | a filter keeps every element that passes as often as it is there, and no other |
| Ranges.RangeData.Init | src/range/SortedRange.hpp:22-29 | starting afresh puts the cursor at the first element, whatever was iterated before |
| Ranges.RangeData.Next | src/range/SortedRange.hpp:31-49 | each step moves on by exactly one element of the range |
| Ranges.RangeData.SkipRejected | src/range/Range.hpp:123-142 | the skip loop terminates and ends at the first element that passes |
| Ranges.Collect | src/range/Range.hpp:28-36 | a loop over a range visits exactly its elements in order |
| Ranges.CollectFilteredTwice | src/range/Range.hpp:163-166 | so does a loop over a chain of two filters |
| TradeSummaries.OrderIndependent | src/models/TradeSummary.hpp:40-61 | every permutation of the trades gives the same summary |
| TradeSummaries.SummariesAdd | src/models/TradeSummary.hpp:40-61 | the summary of two lists is the merged summary |
| TradeSummaries.SummaryTotals | src/models/TradeSummary.hpp:18-58 | counts, volumes and worths are the totals per side, half of an undefined trade each, and the span is exact |
| TradeSummaries.AverageAndSpread | src/models/TradeSummary.hpp:59-60 | average and spread times the total volume are the sum and the difference of the two worths, and exist unless that volume is zero |
| TradeSummaries.SideAverages | src/models/TradeSummary.hpp:18-23 | a side's average price times its volume is its worth |
| TradeSummaries.NothingLost | src/models/TradeSummary.hpp:40-58 | together the sides hold the volume and the worth of all trades, those of undefined type included |
| TradeSummaries.FlipExchanges | src/models/TradeSummary.hpp:40-61 | exchanging BUY and SELL exchanges the sides and leaves span, spread and average |
| TradeSummaries.AverageWithinPrices | src/models/TradeSummary.hpp:18-60 | for positive volumes every average lies between the lowest and the highest price |
| TradeSummaries.TradeSummaryPart.AddTrade | src/models/TradeSummary.hpp:18-23 | the field updates of a part |
| TradeSummaries.TradeSummaryPart.ComputeSpreadWith | src/models/TradeSummary.hpp:24-26 | the spread is symmetric |
| TradeSummaries.TradeSummary.AddTrade | src/models/TradeSummary.hpp:40-61 | the field updates of a summary are one step of the fold |
| MemoryHistories.IndexRefinesScan | src/history/MemoryHistory.hpp:61-63 | the indexed query is the only stable sort by time of the scan of the base class, and empty when begin >= end |
| MemoryHistories.RangeExactly | src/history/MemoryHistory.hpp:60-62 | index and scan give exactly the trades after the begin and not after the end of the range, each as often as it was fed |
| MemoryHistories.SummaryRefinesScan | src/history/History.hpp:68-74 | the summary is the same from index and scan |
| MemoryHistories.SummaryOfRangeSplits | src/history/History.hpp:68-74 | summaries over (a,b] and (b,c] merge to that over (a,c] |
| MemoryHistories.SpanRefinesScan | src/history/MemoryHistory.hpp:68-79 | the ends of the index are the span that the scan of the base class finds |
| MemoryHistories.LookupIsLatest | src/history/MemoryHistory.hpp:45-60 | the balance lookup finds the latest entry exactly when no two entries have the asked time |
| MemoryHistories.LookupFinds | src/history/MemoryHistory.hpp:45-60 | in terms of the order of feeding, any order: the lookup ends at the first entry fed with the asked time, else at the last one fed with the greatest time below |
| MemoryHistories.MemoryHistory.FeedTrade | src/history/MemoryHistory.hpp:19-23 | the log and both of its indexes are kept in agreement |
| MemoryHistories.MemoryHistory.FeedBalanceChange | src/history/MemoryHistory.hpp:15-18 | log and index are kept in agreement |
| MemoryHistories.MemoryHistory.FeedDecision | src/history/MemoryHistory.hpp:27-30 | log and index are kept in agreement |
| MemoryHistories.MemoryHistory.GetBalanceAtTimestamp | src/history/MemoryHistory.hpp:45-60 | the walk back from lower_bound ends at the looked-up entry |
| MemoryHistories.MemoryHistory.GetTradesByTimestamp | src/history/MemoryHistory.hpp:61-63 | a range over the index |
| MemoryHistories.MemoryHistory.ScanTradesByTimestamp | src/history/History.hpp:63-67 | a filtered range over the log |
| MemoryHistories.SummarizeRange | src/history/History.hpp:69-73 | the loop summarises the elements of the range |
| MemoryHistories.MemoryHistory.GetTradeSummary | src/history/History.hpp:68-74 | over the index, it computes the summary of the scan |
| MemoryHistories.MemoryHistory.GetTimeSpan | src/history/MemoryHistory.hpp:68-79 | computes the span of the scan |
| Synchronization.Compare | src/history/History.hpp:160-173 | the two loops compute what each history is fed |
| Synchronization.SynchronizeTrades | src/history/History.hpp:157-183 | both histories hold the union afterwards, and are fed exactly the computed sets |
| Synchronization.CountsAreDifferences | src/history/History.hpp:166-182 | the counts are the set differences exactly when the argument holds no shared trade twice |
| Synchronization.SecondCall | src/history/History.hpp:157-183 | a second call feeds nothing exactly when the argument history had no duplicates |
| Synchronization.SynchronizeUp | src/history/History.hpp:157-183 | the pass up a row of histories loses no trade, and makes all hold everything exactly when the first two had it all |
| Synchronization.SynchronizeNeighbours | src/history/History.hpp:157-183 | a step of such a pass over a row of histories |
| Synchronization.SynchronizeBothWays | src/history/History.hpp:157-183 | both passes over any row of distinct histories make each hold the union, and no log loses a trade, repeated ones included |
| Ledgers.TradeConserves | src/brokers/Broker.hpp:85-98 | a trade keeps liquidity + stock * price, and never lowers the commission |
| Ledgers.CommissionAdds | src/brokers/PretendBroker.hpp:24-26 | a commission is never negative, is zero only if rate, price or volume is, and is the same for a volume traded in two parts |
| Ledgers.SendSettles | src/brokers/PretendBroker.hpp:32-43 | a sent BUY takes in its whole amount at its price, and the same decision sent as a SELL undoes it but for two commissions |
| Ledgers.RunKept | src/brokers/Broker.hpp:68-109 | over any run there is one balance change per broker trade, at its time |
| Ledgers.ExecuteKeeps | src/brokers/Broker.hpp:68-109 | a decision that leaves the changes in order extends the chain of balances by its trade |
| Ledgers.LedgerSnapshot | src/history/MemoryHistory.hpp:45-60 | over any run, after every event and for every time, the balance looked up is the replay of the broker's trades up to then, exactly when those are made at strictly increasing times |
| Ledgers.OrderedDecisions | src/history/MemoryHistory.hpp:45-60 | so it is whenever the decisions come at strictly increasing times after the first balance |
| Ledgers.LateIsWrong | src/history/MemoryHistory.hpp:45-60 | a trade out of order makes the snapshot at the last time before it wrong |
| Ledgers.SameTimeExample | src/brokers/Broker.hpp:68-109 | three BUYs of one unit at one time leave two units |
| Ledgers.DecisionsMatchTrades | src/brokers/Broker.hpp:68-109 | passed decisions and broker trades correspond one to one |
| DecisionRuns.PassesExactly | src/brokers/Broker.hpp:22-50 | a decision passes if and only if it has a price, the balance looked up has no debt and is worth its commission at that price, and the amount, set or computed, is positive; if not, no balance and no trade changes |
| DecisionRuns.EveryChangeFollows | src/brokers/Broker.hpp:68-109 | over any run every change follows by its trade, figure by figure, from the one the lookup finds, which had no debt and was worth its commission; in strict order only the last balance can be in debt |
| DecisionRuns.DebtIsFinal | src/brokers/Broker.hpp:43-44 | once the balance at the latest time is in debt, no decision at a later time passes |
| DecisionRuns.DecisionsLogged | src/brokers/Broker.hpp:104-109 | every decision but those to wait is logged as it came and as it became, in order |
| AllInRuns.AllInTrade | src/brokers/Broker.hpp:30-42 | from a sound balance, an all-in BUY spends it; an all-in SELL keeps it sound exactly at prices from 1 and sells the stock exactly at 1 |
| AllInRuns.AllInPasses | src/brokers/Broker.hpp:22-50 | exactly which all-in decisions pass, at any price but zero |
| AllInRuns.AllInSellExamples | src/brokers/Broker.hpp:35-37 | an all-in SELL that keeps half of the stock, and one that sells twice the stock |
| AllInRuns.AllInSound | src/brokers/Broker.hpp:22-109 | over any run of all-in decisions, at any times, no balance goes negative exactly when all passed SELLs are at prices from 1, so never if all SELLs are, and then SELLs sell out exactly at price 1 |
| AllInRuns.AllInInTurn | src/brokers/Broker.hpp:22-109 | over a sound run, commissions never decrease if none of the times of its trades undercuts (`NoneUndercuts`, three conditions on three or four times); and a SELL passes between any two passed BUYs if the times do not step back, with no third one after an earlier one and no second one at the time of the first balance |
| AllInTimes.AlternationExactly | src/brokers/Broker.hpp:22-109 | for any list of decision times, a SELL passes between any two passed BUYs on all runs at those times, whatever their SELL prices from 1, exactly if the times do not step back, none comes three times after an earlier one, and that of the first balance does not come twice |
| AllInTimes.CommissionExactly | src/brokers/Broker.hpp:22-109 | for any list of decision times, commissions never decrease on any run at those times, whatever their SELL prices from 1, exactly if no time comes before one that an earlier rise began at or at that of the first balance, none from an earlier peak on after a rise below it, and none before the last of two rises or a third time at it |
| AllInTimes.TwoBuys | src/history/MemoryHistory.hpp:45-60 | two BUYs that pass one after the other, for any second time before the first |
| AllInTimes.TwoBuysTied | src/history/MemoryHistory.hpp:45-60 | a BUY, and at any later time a SELL and two BUYs, that all pass |
| AllInTimes.BelowRise | src/history/MemoryHistory.hpp:45-60 | a BUY, a SELL, and a BUY at any time that finds the first balance: the commission has fallen |
| AllInTimes.BelowDip | src/history/MemoryHistory.hpp:45-60 | two BUYs, a SELL on the second and then one on the first: the commission has fallen |
| AllInTimes.BelowTwoRises | src/history/MemoryHistory.hpp:45-60 | a BUY, a SELL, a BUY, and a trade at any time that does not find the last change: the commission has fallen |
| Brokers.PretendBroker.Init | src/brokers/PretendBroker.hpp:12-22 | feeds the first balance and sets the rate |
| Brokers.PretendBroker.Validate | src/brokers/Broker.hpp:22-50 | fills in an unset amount and decides as the ledger does, or finds that the amount would be divided by zero |
| Brokers.PretendBroker.Book | src/brokers/Broker.hpp:80-102 | one trade becomes one balance change on the balance looked up |
| Brokers.PretendBroker.Execute | src/brokers/Broker.hpp:68-109 | one decision is one step of the ledger, unless its unset amount would be divided by a price of zero |
| Names.InsertNameKeeps | src/db/RotatingLog.hpp:25-30 | the set of paths stays in ascending order |
| Names.AscendingUnique | src/db/RotatingLog.hpp:25-31 | a set of names has one ascending listing |
| Dates.SuffixSorts | src/db/RotatingLog.hpp:145-153 | which of two names comes first, for dates in any years |
| Dates.SuffixFields | src/db/RotatingLog.hpp:148-151 | where each field of a date stands in a name, and that it reads back as its number |
| Dates.SuffixOrder | src/db/RotatingLog.hpp:145-153 | the names of two dates are in their order exactly when their years have equally many digits or the earlier is at most the leading digits of the later |
| Dates.LeadingIsQuotient | src/db/RotatingLog.hpp:148-151 | the leading digits of a year are its quotient by a power of ten |
| Dates.FiveDigitYears | src/db/RotatingLog.hpp:145-153 | later years that sort before, and later years that do not |
| RotatingLogs.NewPieceHolds | src/db/RotatingLog.hpp:142-158 | opening a file, new or known, changes nothing that was written |
| RotatingLogs.NewItemHolds | src/db/RotatingLog.hpp:166-172 | appending to the open file changes that file only, and adds the item at its end |
| RotatingLogs.RotatesExactly | src/db/RotatingLog.hpp:166-182 | a new file is begun exactly when the open one then holds more than the threshold and was begun an interval ago; its name is base path, point and date |
| RotatingLogs.ClosedPiecesFull | src/db/RotatingLog.hpp:166-182 | over any run every file closed got more bytes than the threshold |
| RotatingLogs.ReaderFindsAll | src/db/RotatingLog.hpp:20-32 | a reader reads back what was written to each name, name after name |
| RotatingLogs.ForwardIsReadBack | src/db/RotatingLog.hpp:20-32 | that is all that was appended, in order, if no name sorts before an earlier one, repeated names included |
| RotatingLogs.ReadsBack | src/db/RotatingLog.hpp:128-182 | every run of a writer goes on in order after what was there before, if names an interval apart go forward |
| RotatingLogs.StepsBack | src/db/RotatingLog.hpp:142-182 | if two names an interval apart do not, a run of two items is read back in the wrong order |
| RotatingLogs.ReadsBackExactly | src/db/RotatingLog.hpp:128-182 | all runs over a range of clock readings are read back in order exactly if, an interval or more later, no name sorts before |
| RotatingLogs.NamesAndDates | src/db/RotatingLog.hpp:142-158 | the same condition in terms of local dates, in any years |
| RotatingLogs.RotatingLogWriter.constructor | src/db/RotatingLog.hpp:128-136 | starts a log in a directory, after whatever was written to it before |
| RotatingLogs.RotatingLogWriter.Start | src/db/RotatingLog.hpp:142-158 | opens the file of the current second, again if it exists |
| RotatingLogs.RotatingLogWriter.Append | src/db/RotatingLog.hpp:166-182 | appends the item and rotates exactly when threshold and interval say so |
| RotatingLogs.RotatingLogReader.constructor | src/db/RotatingLog.hpp:20-32 | lists the files under the prefix in order |
| RotatingLogs.RotatingLogReader.RotateFile | src/db/RotatingLog.hpp:44-55 | opens the next file, if any, losing nothing |
| RotatingLogs.RotatingLogReader.Next | src/db/RotatingLog.hpp:57-79 | gives the next item of all files, skipping empty ones, and fails for ever after the last |
| RotatingLogs.RoundTrip | tests/rotatinglog.cpp:24-53 | writer and reader give back what the files hold, which is what was appended if the names went forward, and then every read fails |
| FastTrigo.LowBitsIsRemainder | src/math/fast_trigo.hpp:36-38 | masking the low bits is the remainder, for negative numbers too |
| FastTrigo.Initialize | src/math/fast_trigo.hpp:23-30 | fills the table with the function at the centred angles |
| FastTrigo.SameAngle | src/math/fast_trigo.hpp:36-38 | masking turns the angle by whole periods |
| FastTrigo.ErrorBound | src/math/fast_trigo.hpp:23-38 | the looked-up value is less than 3 pi / N from the true one |
| FastTrigo.TruncateTowardZero | src/math/fast_trigo.hpp:36-38 | the index is rounded toward zero |
| FastTrigo.NegativeErrorBound | src/math/fast_trigo.hpp:23-38 | for arguments below zero the looked-up value is at most pi / N from the true one |

## Left out

- Sockets, select, URL parsing and the HTTP upgrade in easywsclient.cpp: only what recv and send return is modelled, as inputs; callbacks do not call back into the endpoint.
- Frames.Encode: the octets of a length are written as quotients and remainders by powers of 256, not as shifts of a 64-bit word; the decoder's shifts and ors are modelled as such.
- RealWebSockets.RealWebSocket.DispatchBinary: what the original does after a length has wrapped is undefined, and the model stops there.
- Delivery.DeliveryPossible: a buffer of the receiver that could not hold the rest of the stream is left out.
- RealWebSockets.RealWebSocket.Poll: buffer sizes are not narrowed to the `int` locals of the original, so a buffer of 2^31 bytes or more is not modelled exactly.
- Sources.Source.Cleanup: an id that is marked while the loop over the deleted ids runs is not visited in that cleanup; in the original the set is changed under the loop.
- Sources.Source.CleanupOne: what other threads do to other ids while it compares is left to the state machine of OrderBook.
- MemoryHistories.MemoryHistory.GetBalanceAtTimestamp: a lookup before the first balance change steps before the beginning of the index in the original, so it is outside the precondition.
- MemoryHistories.MemoryHistory.GetTradesByTimestamp: a range is over the index as it was when the range was made; the original's range sees later insertions.
- MemoryHistory: the index of orders by id, which nothing reads, and queries of decisions by timestamp, which are those for trades again.
- History: plotting, and the balance scan of the base class, which never assigns the timestamp it compares with.
- Synchronization.SynchronizeTrades: a set of trades is visited in any order, not in byte order; orders and decisions are not synchronised.
- Brokers.PretendBroker.Execute: one history instead of a set of them; where the original divides by a price of exactly zero the model stops, with a verdict of its own.
- Brokers.PretendBroker.Validate: the lookup is of the one history.
- Ledgers.LedgerSnapshot: runs end before such a division, and no decision comes before the first balance, where the lookup is undefined.
- Brokers.PretendBroker.Init: one history instead of a set of them.
- Brokers.PretendBroker.Book: one history instead of a set of them.
- AllInRuns.AllInPasses: a price of exactly zero is left out, for the same reason.
- Ranges.RangeData.Init: the unbounded form of the sorted range is not modelled; it compares with a lower bound that was never set.
- RotatingLogs.RoundTrip: a file holds whole items; errors of the file system are not modelled. The local date at a time is an input, any function at all.
- Dates.SuffixOrder: years before the year 0 are left out.
- FastTrigo.ErrorBound: the argument of the macros is a single value, and rounding is not modelled.
- Floating-point rounding, NAN propagation, Pusher, RestClient, TCPClient, TCPServer, WebSocketClient, BitstampSource, CSVSource, DBHistory, LogHistory, UpscaleBTree, GzipLog, PlainLog, Plotter, Fourier and RandomBot.
