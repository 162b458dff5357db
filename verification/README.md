# Verification of the simulator cores

This project models the parts of the repository where something can go subtly
wrong, and proves what they are relied on for.

- **Event queues** (`Events`, `SimpleQueue`, `HeapQueue`, `Calendar*`,
  `QueueAgreement`). The three priority queues are classes over real links,
  arrays and back-pointers. Each is proved against a set of pending events from
  which a dequeue takes one of least time. The calendar queue is the hard one:
  slots of a year, a cached head, a year scan that falls back to a direct
  search, and resizing that samples the queue's own contents for a width that
  depends on their times alone (`CalendarWidth`). All three give the same
  answers to any run over events of distinct times, and the same times if there
  are ties, as long as each event is queued once and none is deleted.
- **802.11 MAC** (`MacStates`, `MacInvariant`, `MacRuns`, `MacStation`,
  `Mac80211`). One pure function per handler, an invariant kept by every
  handler, and theorems about whole runs under any network layer and any
  medium; then the MAC composed with the buffering queue in front of it.
  `MacReports`, `MacHistory` and `MacMedium` say, without the handlers, what
  goes on the air, up and back, what is received, and how long is deferred. The
  class `Mac80211.Mac` carries the handlers in place, with the assertions where
  the source has them, and takes exactly the steps of the state machine.
- **RSA** (`NumberTheory`, `Rsa`). The power loops, the search for the private
  exponent, and the round trip by way of Fermat's little theorem (RFC 8017,
  sections 3.2, 5.1.1 and 5.1.2).
- **Dynamic source routing** (`DsrNodes`, `DsrNetwork`, `Dsri`). Any number of
  nodes over any topology; frames are lost, delayed, overtaken and repeated.
  `DsrNetwork` has what never goes wrong, `DsrLaws` that routes are found.
  `Dsri` holds the array-based path and the handlers in place.
- **Engine and timers** (`Engine`, `EngineLaws`, `InfiTimer`).
- **SHR over the broadcast MAC** (`ShrStates`, `ShrInvariant`, `ShrLaws`,
  `ShrReception`, `ShrStack`). The two layers call each other at once, so they
  are one state machine.
- **CompC++ translator** (`CTokens`, `CParser`, `CParserLaws`). The token forest
  is built in place by pointers and printed in preorder; the grammar is also
  said without the parser's loops.
- **Flooding** (`SeqWindow`, `FloodNetwork`, `FloodLaws`), **memory**
  (`CorsaAllocator`, `SmartPackets`) and **FlowQueue** (`FlowQueue`, `FlowLaws`).

Times, powers and widths are real numbers. Every random number is an argument.
Calls of outports are results or an action log. Where a module has both
functions and a class, the class changes its fields in place and its methods
are proved equal to the functions; the theorems are about the functions. The
modules with `Laws`, `Reports`, `History`, `Medium` or `Reception` in their
names pin these functions down by what happened before and what is seen after.

Where the code differs from what one would expect of it, the code is followed:

- No order among events of equal times is promised. The list keeps the order
  in which they came exactly if there are at most two of them
  (`QueueAgreement.SimpleTies`).
- `NewWidth` gives 1.0 whenever there are at most five events, because it then
  asks for one gap more than there are; and its fallback for an empty selection
  is never taken (`CalendarSlots.SomeBelow`).
- With clear-stats in use the engine can activate one event at or after the
  stop time (`Engine.FallThrough`). It does exactly if nothing falls due from
  the time of the clearing up to the stop time and something does later
  (`Engine.Simulation.Run`).
- The 802.11 MAC resets its counter of short retries only for short payloads, so
  after a long one that was given up for want of a CTS the next long one has one
  try for it
  (`MacHistory.NoSecondChance`).
- `check` in the RSA program looks for the factor three only, so the search for
  the private exponent need not end (`Rsa.SearchEndsIff`, `Rsa.CheckMisses`).
- After a syntax error CompC++ goes on behind the token that did not fit; what it
  was reading is lost, and with a function that does not end also a template
  before it (`CParser.Translate`).
- A route that `truncate_copy` makes is one slot too long; the slot is never
  followed (`DsrNetwork.TravelFollows`).
- The flooding window is as wide as `sizeof(unsigned long)`, four or eight
  numbers and not thirty-two, and a shift by 32 or more is undefined in C. On a
  machine that takes the shift count modulo 32, stale bits can make later
  answers wrong (`SeqWindows.MaskedForgets`);
  `SeqWindows.MaskedRunAlikeIff` says on which runs all answers are right.
- `FlowQueue::deque` of the last item leaves `tail` dangling; `enque` never
  does that (`FlowQueues.FlowQueue.Deque`, `FlowQueues.FlowQueue.Enque`).

To check the project: `dafny verify dfyconfig.toml`.

## Model

| member | source | states |
|---|---|---|
| QueueAgreement.RunAll | combi/final/sensor patch/sense/code/common/priority_q.h:485-641 | driven by any one sequence of enqueues, deletes and dequeues, every dequeue of the list, the heap and the calendar gives one of the earliest pending events; if no two times are equal all three give the same events, those of the reference; and if each event is queued once and none deleted all three give the same times, ties or not |
| QueueAgreement.TimesDetermined | combi/final/sensor patch/sense/code/common/priority_q.h:62-641 | any two histories that always dequeue an earliest event, over one run that queues each event once and deletes none, dequeue the same times in the same order |
| QueueAgreement.Determined | combi/final/sensor patch/sense/code/common/priority_q.h:62-641 | without equal times there is only one such history, that of the reference |
| QueueAgreement.SimpleTies | combi/final/sensor patch/sense/code/common/priority_q.h:62-91 | events of one time leave the list first the first, then the others backwards; so in the order in which they came exactly if there are at most two |
| QueueAgreement.RunCalendar | combi/final/sensor patch/sense/code/common/priority_q.h:485-641 | every dequeue of the calendar queue, through every resize and any run of operations, gives one of the earliest pending events |
| QueueAgreement.RunHeap | combi/final/sensor patch/sense/code/common/priority_q.h:335-376 | so does every dequeue of the heap |
| QueueAgreement.RunSimple | combi/final/sensor patch/sense/code/common/priority_q.h:62-110 | so does every dequeue of the sorted list |
| QueueAgreement.DequeuesAscend | combi/final/sensor patch/sense/code/common/priority_q.h:485-491 | in the reference, of two dequeues with nothing between them the second gives a strictly later event |
| CalendarQueues.CalendarQueue.EnQueue | combi/final/sensor patch/sense/code/common/priority_q.h:550-565 | adds one event, keeping the cached head earliest and the calendar below it in order |
| CalendarQueues.CalendarQueue.DeQueue | combi/final/sensor patch/sense/code/common/priority_q.h:486-491 | gives an event of least time, and null exactly when nothing is queued; nothing else is lost |
| CalendarQueues.CalendarQueue.Delete | combi/final/sensor patch/sense/code/common/priority_q.h:608-641 | takes out the event and nothing else, whether it is the cached head, stored, or not queued at all |
| CalendarQueues.CalendarQueue.Dequeue | combi/final/sensor patch/sense/code/common/priority_q.h:493-548 | what is below the head loses one of its earliest events; the bucket count is halved exactly if that event is due within a year of the cursor, so that the scan finds it, and fewer events than the lower threshold are left |
| CalendarQueues.CalendarQueue.Enqueue | combi/final/sensor patch/sense/code/common/priority_q.h:567-606 | what is below the head gains the event; the bucket count doubles exactly when there would be more than two events a bucket |
| CalendarQueues.CalendarQueue.DeleteStored | combi/final/sensor patch/sense/code/common/priority_q.h:615-641 | takes a stored event out; the bucket count is halved exactly if that leaves fewer events than the lower threshold |
| CalendarQueues.CalendarQueue.ReSize | combi/final/sensor patch/sense/code/common/priority_q.h:449-484 | keeps the stored events, gives the bucket count asked for and the width that belongs to these events, and re-establishes slots, cursor and thresholds under it |
| CalendarQueues.CalendarQueue.Refill | combi/final/sensor patch/sense/code/common/priority_q.h:457-482 | a new bucket array holds exactly the events of the old one, each in the bucket of its slot, with the cursor on the slot of the last priority |
| CalendarQueues.CalendarQueue.MoveAll | combi/final/sensor patch/sense/code/common/priority_q.h:466-475 | the two nested loops of the move: every chain of the old array has been emptied into the new one, in order |
| CalendarQueues.CalendarQueue.MoveChain | combi/final/sensor patch/sense/code/common/priority_q.h:469-474 | one old chain is emptied front first, the events not yet moved staying linked as they were |
| CalendarQueues.CalendarQueue.NewWidth | combi/final/sensor patch/sense/code/common/priority_q.h:643-721 | leaves events, cursor and last priority as they were and gives the width that belongs to the stored events: by their first different times in order, as many as the sample size asks for; with at most five events it is always 1.0 |
| CalendarQueues.CalendarQueue.Measure | combi/final/sensor patch/sense/code/common/priority_q.h:654-720 | takes out and puts back the sampled events, restores the cursor, and gives the width that the first different times of all stored events determine |
| CalendarQueues.CalendarQueue.Sample | combi/final/sensor patch/sense/code/common/priority_q.h:658-689 | takes events out earliest first until enough non-zero gaps are seen or none is left; the gaps kept are those between the different times taken, and avg1 is their sum |
| CalendarQueues.CalendarQueue.Average | combi/final/sensor patch/sense/code/common/priority_q.h:702-720 | the two passes over the samples compute three times the mean of those below twice the average |
| CalendarSlots.WidthOf | combi/final/sensor patch/sense/code/common/priority_q.h:702-720 | the width computed from at least two positive gaps is positive |
| CalendarSlots.SomeBelow | combi/final/sensor patch/sense/code/common/priority_q.h:702-715 | some of the first n - 1 samples is below the limit, so the fallback to 1.0 for an empty selection is never needed |
| CalendarWidth.EvenWidth | combi/final/sensor patch/sense/code/common/priority_q.h:702-720 | events at equal distances get slots of three times that distance |
| CalendarWidth.WidthWithin | combi/final/sensor patch/sense/code/common/priority_q.h:702-720 | the width always lies between three times the least and three times the greatest gap sampled |
| CalendarWidth.SampledIsPrefix | combi/final/sensor patch/sense/code/common/priority_q.h:671-689 | the times of the events taken out are the first of all different times, and all of them if nothing is left |
| CalendarQueues.CalendarQueue.PutBack | combi/final/sensor patch/sense/code/common/priority_q.h:690-696 | all events of a list go back into the calendar |
| CalendarQueues.CalendarQueue.Place | combi/final/sensor patch/sense/code/common/priority_q.h:567-603 | an event goes into the bucket of its slot; an event before the last priority moves the cursor back to its slot |
| CalendarQueues.CalendarQueue.Insert | combi/final/sensor patch/sense/code/common/priority_q.h:585-603 | one more event in one chain, all chains staying linked and sorted |
| CalendarQueues.CalendarQueue.FindPlace | combi/final/sensor patch/sense/code/common/priority_q.h:595-599 | the walk stops where the event keeps the chain sorted |
| CalendarQueues.CalendarQueue.Take | combi/final/sensor patch/sense/code/common/priority_q.h:493-548 | the earliest stored event; found by the scan exactly if it is due within a year of the cursor, else by the direct search; null exactly when nothing is stored |
| CalendarQueues.CalendarQueue.YearScan | combi/final/sensor patch/sense/code/common/priority_q.h:495-519 | a hit is an event of least time, within the year; after a year without one nothing is due before its end and the walk is back at its bucket |
| CalendarQueues.CalendarQueue.DirectSearch | combi/final/sensor patch/sense/code/common/priority_q.h:521-539 | the bucket whose front is of least time, or the bucket count exactly when nothing is stored |
| CalendarQueues.CalendarQueue.MoveCursor | combi/final/sensor patch/sense/code/common/priority_q.h:570-577 | bucket, top and priority belong to the slot of one time |
| CalendarQueues.CalendarQueue.RestoreCursor | combi/final/sensor patch/sense/code/common/priority_q.h:698-700 | the saved cursor is still right after the events are back |
| CalendarQueues.CalendarQueue.Search | combi/final/sensor patch/sense/code/common/priority_q.h:624-640 | finds an event in its chain exactly if it is there, with the event before it |
| CalendarQueues.CalendarQueue.Remove | combi/final/sensor patch/sense/code/common/priority_q.h:619-640 | unlinks the event exactly if it is in the bucket |
| CalendarQueues.CalendarQueue.constructor | combi/final/sensor patch/sense/code/common/priority_q.h:423-442 | sixteen empty buckets of width 1.0 |
| CalendarYear.ScanHit | combi/final/sensor patch/sense/code/common/priority_q.h:498-509 | a front below the top is of least time among all stored events: the half slot of slack lets no later slot in |
| CalendarYear.ScanMiss | combi/final/sensor patch/sense/code/common/priority_q.h:511-518 | a bucket that the scan leaves behind holds nothing of the current slot, so nothing stored is before the next |
| CalendarYear.HitSlot | combi/final/sensor patch/sense/code/common/priority_q.h:498-545 | a front below the top, slack included, is of the current slot because neighbouring slots have different buckets |
| CalendarSlots.SlotBounds | combi/final/sensor patch/sense/code/common/priority_q.h:572-575 | a time lies in the slot that dividing by the width gives |
| CalendarSlots.SlotUnique | combi/final/sensor patch/sense/code/common/priority_q.h:572-575 | and in no other |
| HeapQueues.HeapQueue.EnQueue | combi/final/sensor patch/sense/code/common/priority_q.h:335-351 | adds the event, through growth, keeping heap order and every back-pointer |
| HeapQueues.HeapQueue.DeQueue | combi/final/sensor patch/sense/code/common/priority_q.h:354-364 | gives an event of least time, and null exactly when empty; the others stay |
| HeapQueues.HeapQueue.Delete | combi/final/sensor patch/sense/code/common/priority_q.h:367-376 | takes out any queued event, the one in the last position included |
| HeapQueues.HeapQueue.RemoveAt | combi/final/sensor patch/sense/code/common/priority_q.h:359-361 | the last event takes the place of the removed one, where alone the order may be disturbed |
| HeapQueues.HeapQueue.SiftDown | combi/final/sensor patch/sense/code/common/priority_q.h:286-309 | a disturbance at a node, its key being too late, is repaired below; the node may still be too early |
| HeapQueues.HeapQueue.PercolateUp | combi/final/sensor patch/sense/code/common/priority_q.h:311-332 | a disturbance at a node, its key being too early, is repaired above |
| HeapQueues.HeapQueue.LeastChild | combi/final/sensor patch/sense/code/common/priority_q.h:294-299 | the least of a node and its children, and the node itself unless a child is strictly less |
| HeapQueues.HeapQueue.Grow | combi/final/sensor patch/sense/code/common/priority_q.h:337-345 | twice the room, the same contents |
| HeapQueues.HeapQueue.constructor | combi/final/sensor patch/sense/code/common/priority_q.h:274-279 | an empty heap with room for sixteen |
| HeapQueues.RootIsLeast | combi/final/sensor patch/sense/code/common/priority_q.h:358 | the root of a heap is of least time |
| HeapQueues.RiseStep | combi/final/sensor patch/sense/code/common/priority_q.h:318-330 | an exchange with a later parent moves the only disturbance up |
| HeapQueues.SinkStep | combi/final/sensor patch/sense/code/common/priority_q.h:296-307 | an exchange with the least child moves the only disturbance down |
| SimpleQueues.SimpleQueue.EnQueue | combi/final/sensor patch/sense/code/common/priority_q.h:62-81 | inserts the event where the list stays sorted: behind the front but ahead of all others of its time |
| SimpleQueues.SimpleQueue.DeQueue | combi/final/sensor patch/sense/code/common/priority_q.h:84-91 | takes the front, which is of least time |
| SimpleQueues.SimpleQueue.Delete | combi/final/sensor patch/sense/code/common/priority_q.h:94-110 | unlinks a queued event wherever it is, and nothing for null |
| MacRuns.RunKeeps | combi/final/sensor patch/sense/code/mac/mac_80211.h:345-933 | in every reachable state: DEFER has exactly one of the deferral and receive timers, AwaitCts and AwaitAck go with their timers, the window plus one is a power of two from 32 to 1024, backoff is not negative, no deadline is past; and the requests are those acknowledged plus those pending |
| MacRuns.NoAssertFails | combi/final/sensor patch/sense/code/mac/mac_80211.h:382-965 | in no run does an assertion fail, nor is either branch "two sends overlap" taken |
| MacRuns.NeverOverlap | combi/final/sensor patch/sense/code/mac/mac_80211.h:936-965 | in every run each transmission of the node ends before the next starts |
| MacRuns.LastSendGrows | combi/final/sensor patch/sense/code/mac/mac_80211.h:936-965 | no event makes m_last_send smaller |
| MacRuns.GivesUpInTime | combi/final/sensor patch/sense/code/mac/mac_80211.h:820-873 | at any moment of any run the request accepted last has seen at most ShortRetryLimit + LongRetryLimit timeouts (a LongRetryLimit of zero counting as one) |
| MacRuns.TimeoutsGrow | combi/final/sensor patch/sense/code/mac/mac_80211.h:820-873 | within a step that accepts nothing the number of timeouts never falls |
| MacInvariant.StepKeeps | combi/final/sensor patch/sense/code/mac/mac_80211.h:345-975 | every handler keeps the invariant; only a request adds to the balance of acknowledged and pending |
| MacInvariant.NetworkKeeps | combi/final/sensor patch/sense/code/mac/mac_80211.h:345-380 | a request is refused with an acknowledgement or becomes pending |
| MacInvariant.DeferKeeps | combi/final/sensor patch/sense/code/mac/mac_80211.h:382-450 | when deferral ends nothing is on the air, arranged or waiting to be acknowledged, so the frame goes out |
| MacInvariant.PhyKeeps | combi/final/sensor patch/sense/code/mac/mac_80211.h:453-524 | the start of a reception suspends deferral and keeps the backoff that is left non-negative |
| MacInvariant.RecvKeeps | combi/final/sensor patch/sense/code/mac/mac_80211.h:527-624 | the end of a reception resumes deferral on every path |
| MacInvariant.ReceivedKeeps | combi/final/sensor patch/sense/code/mac/mac_80211.h:559-623 | so it does for a sound frame of any kind |
| MacInvariant.RtsKeeps | combi/final/sensor patch/sense/code/mac/mac_80211.h:627-675 | answering an RTS arranges one CTS, after everything sent |
| MacInvariant.RecvCtsKeeps | combi/final/sensor patch/sense/code/mac/mac_80211.h:678-724 | a CTS turns the wait for it into the wait for an acknowledgement |
| MacInvariant.DataKeeps | combi/final/sensor patch/sense/code/mac/mac_80211.h:727-802 | received data keeps the invariant and the balance of requests, whether or not it is acknowledged and handed up; what goes up is in MacHistory.DataGoesUp |
| MacInvariant.RecvAckKeeps | combi/final/sensor patch/sense/code/mac/mac_80211.h:804-818 | an acknowledgement ends the request |
| MacInvariant.CtsKeeps | combi/final/sensor patch/sense/code/mac/mac_80211.h:820-841 | a missing CTS leads to another try or to giving up, with one acknowledgement to the layer above |
| MacInvariant.AckKeeps | combi/final/sensor patch/sense/code/mac/mac_80211.h:843-873 | so does a missing acknowledgement, by the counter that belongs to the size of the payload |
| MacInvariant.TxLaterKeeps | combi/final/sensor patch/sense/code/mac/mac_80211.h:951-965 | a delayed transmission after a reception that met no earlier one finds phy_timer inactive |
| MacInvariant.StartDeferKeeps | combi/final/sensor patch/sense/code/mac/mac_80211.h:883-911 | deferral ends after everything sent, or waits for the reception under way |
| MacInvariant.ResumeDeferKeeps | combi/final/sensor patch/sense/code/mac/mac_80211.h:915-933 | resumed deferral too |
| MacReports.StepSays | combi/final/sensor patch/sense/code/mac/mac_80211.h:345-977 | what each event adds to what the MAC sends and reports, said without the handlers: a request taken on or refused; the frame that opens an exchange, by payload size and destination; the payload and address of a sound data frame that this node may take and has not taken last from its sender; success for the acknowledgement waited for; a timeout, and failure if it was the last one allowed; what was arranged before |
| MacReports.RecvSays | combi/final/sensor patch/sense/code/mac/mac_80211.h:527-818 | what the end of a reception does to everything else: the answer that is arranged, the NAV, the numbers remembered, the exchange in hand and its timers, in each case of soundness, address, kind and state |
| MacReports.OthersSays | combi/final/sensor patch/sense/code/mac/mac_80211.h:345-880 | what every other event does to the request in hand, its counters and window, the timers and the medium |
| MacHistory.DataGoesUp | combi/final/sensor patch/sense/code/mac/mac_80211.h:727-802 | in every run exactly the data frames go up that come sound, may be taken and do not carry the number of the one taken last from their sender, each once, with payload and address |
| MacHistory.CacheIs | combi/final/sensor patch/sense/code/mac/mac_80211.h:775-800 | the numbers remembered are those of the data frames taken last, told by the history alone |
| MacHistory.OutcomesAre | combi/final/sensor patch/sense/code/mac/mac_80211.h:345-873 | in every run success is reported exactly when the acknowledgement waited for is received or the broadcast sent last is over, and failure exactly when a request is refused or given up by the timeout that has just come |
| MacHistory.RunIsDue | combi/final/sensor patch/sense/code/mac/mac_80211.h:417-450 | the end of a broadcast is always set to the end of the data frame put on the air last |
| MacHistory.WindowIs | combi/final/sensor patch/sense/code/mac/mac_80211.h:820-873 | in every run the contention window is the least one, doubled for each timeout of the request in hand, up to the greatest; and the retries of a short payload count just these timeouts |
| MacHistory.WidenedIs | combi/final/sensor patch/sense/code/mac/mac_80211.h:832-867 | which is 31, 63, 127, 255, 511 and from then on 1023 |
| MacHistory.ShortGivesUp | combi/final/sensor patch/sense/code/mac/mac_80211.h:843-873 | a short payload is given up exactly with the timeout that makes their number the limit |
| MacHistory.NoSecondChance | combi/final/sensor patch/sense/code/mac/mac_80211.h:360-371 | the counter of short retries is not reset for a long payload: after one was given up for want of a CTS, the next long one is given up with its first such timeout |
| MacMedium.SoundIff | combi/final/sensor patch/sense/code/mac/mac_80211.h:453-557 | in every run a frame is dealt with at its end exactly if no other drowned or damaged it and none of this node's transmissions lasted past its start |
| MacMedium.ReceptionIs | combi/final/sensor patch/sense/code/mac/mac_80211.h:453-524 | what is being received is a frame whose start was heard, and it is without error exactly if it came clear of all that was heard around it |
| MacMedium.ClearIsReceived | combi/final/sensor patch/sense/code/mac/mac_80211.h:453-524 | a frame that comes clear is what is being received until it ends |
| MacMedium.DeferralIs | combi/final/sensor patch/sense/code/mac/mac_80211.h:883-933 | in every run the backoff left is the one drawn less what was served of it in all deferrals since, and a deferral ends an interframe space, and the backoff left if it counts, after the latest of the node's last transmission, the NAV and the moment it was set |
| MacMedium.StepDefers | combi/final/sensor patch/sense/code/mac/mac_80211.h:453-933 | how each event starts, suspends, resumes or leaves a deferral, the longer interframe space after a reception that failed included |
| MacMedium.NavIs | combi/final/sensor patch/sense/code/mac/mac_80211.h:563-565 | in every run the NAV is the latest time that any sound frame has reserved the medium until |
| MacMedium.DrawnIs | combi/final/sensor patch/sense/code/mac/mac_80211.h:883-911 | a backoff is the drawn share of the contention window, below the whole of it |
| MacMedium.DurationIs | combi/final/sensor patch/sense/code/mac/mac_80211.h:402-440 | a duration field that does not overflow says its time to half a microsecond |
| MacStation.StationRunKeeps | combi/final/sensor patch/sense/code/util/fifo_ack.h:75-126 | behind the buffering queue, in every run: the queue is busy exactly while the MAC has one request that is not acknowledged, and the requests taken on followed by those queued are those that arrived, in order |
| MacStation.StationKeeps | combi/final/sensor patch/sense/code/util/fifo_ack.h:75-126 | every step of queue and MAC together keeps this |
| MacStation.NoneRefused | combi/final/sensor patch/sense/code/mac/mac_80211.h:348-359 | in such a history each request taken on is acknowledged once and no acknowledgement is a refusal |
| MacStation.CarriesAt | combi/final/sensor patch/sense/code/mac/mac_80211.h:389-401 | every data frame carries the payload of the request taken on last |
| MacStation.PayloadsInOrder | combi/final/sensor patch/sense/code/util/fifo_ack.h:75-126 | a later data frame never carries an earlier arrival |
| MacStation.AddsKeeps | combi/final/sensor patch/sense/code/mac/mac_80211.h:803-873 | a step that accepts nothing acknowledges at most once, and only what is open |
| MacStation.FifoAck.In | combi/final/sensor patch/sense/code/util/fifo_ack.h:75-96 | passes a request on or queues it, and acknowledges, according to NoBuffer and busy |
| MacStation.FifoAck.Next | combi/final/sensor patch/sense/code/util/fifo_ack.h:106-126 | gives the oldest queued request, or turns idle; without buffering it passes the flag on |
| MacStation.FifoAck.constructor | combi/final/sensor patch/sense/code/util/fifo_ack.h:60-63 | idle with nothing queued |
| Mac80211.Mac.constructor | combi/final/sensor patch/sense/code/mac/mac_80211.h:317-336 | the state at the start, which satisfies the invariant |
| Mac80211.Mac.FromNetwork | combi/final/sensor patch/sense/code/mac/mac_80211.h:345-380 | takes the step of the state machine in place and keeps the invariant |
| Mac80211.Mac.DeferFires | combi/final/sensor patch/sense/code/mac/mac_80211.h:382-450 | the same, with the assertions of lines 386 and 423 asserted in place |
| Mac80211.Mac.FromPhy | combi/final/sensor patch/sense/code/mac/mac_80211.h:453-524 | the same, with the assertions on deferral and on the backoff left |
| Mac80211.Mac.RecvFires | combi/final/sensor patch/sense/code/mac/mac_80211.h:527-624 | the same for the end of a reception |
| Mac80211.Mac.Receive | combi/final/sensor patch/sense/code/mac/mac_80211.h:559-623 | the dispatch on the kind of frame |
| Mac80211.Mac.RecvRts | combi/final/sensor patch/sense/code/mac/mac_80211.h:627-675 | as the state machine, with the assertion on the NAV |
| Mac80211.Mac.RecvCts | combi/final/sensor patch/sense/code/mac/mac_80211.h:678-724 | as the state machine |
| Mac80211.Mac.RecvData | combi/final/sensor patch/sense/code/mac/mac_80211.h:727-802 | as the state machine, in which exactly new data that this node may take goes up (MacReports.DataSays) |
| Mac80211.Mac.RecvAck | combi/final/sensor patch/sense/code/mac/mac_80211.h:804-818 | as the state machine, in which an acknowledgement that is waited for reports success (MacReports.AckSays) |
| Mac80211.Mac.CtsFires | combi/final/sensor patch/sense/code/mac/mac_80211.h:820-841 | as the state machine, with the assertion on the state |
| Mac80211.Mac.AckFires | combi/final/sensor patch/sense/code/mac/mac_80211.h:843-873 | as the state machine, with the assertion on the state |
| Mac80211.Mac.NavFires | combi/final/sensor patch/sense/code/mac/mac_80211.h:876-880 | as the state machine |
| Mac80211.Mac.NetworkAckFires | combi/final/sensor patch/sense/code/mac/mac_80211.h:968-971 | as the state machine |
| Mac80211.Mac.PhyFires | combi/final/sensor patch/sense/code/mac/mac_80211.h:974-977 | as the state machine |
| Mac80211.Mac.StartDefer | combi/final/sensor patch/sense/code/mac/mac_80211.h:883-911 | as the state machine, with both assertions |
| Mac80211.Mac.ResumeDefer | combi/final/sensor patch/sense/code/mac/mac_80211.h:915-933 | as the state machine, with the assertion on the timer |
| Mac80211.Mac.TxNow | combi/final/sensor patch/sense/code/mac/mac_80211.h:936-949 | where the medium is free of earlier transmissions, sends |
| Mac80211.Mac.TxLater | combi/final/sensor patch/sense/code/mac/mac_80211.h:951-965 | where it will be, arranges to send; the assertion on phy_timer holds |
| MacReports.DataSays | combi/final/sensor patch/sense/code/mac/mac_80211.h:727-802 | a sound data frame: acknowledged a SIFS later if it is for this node alone, handed up if its number is new from its sender, ignored in the middle of an exchange or of somebody else's session |
| MacReports.AckSays | combi/final/sensor patch/sense/code/mac/mac_80211.h:804-818 | a sound acknowledgement ends the wait for it with success, and changes nothing otherwise |
| MacReports.RtsSays | combi/final/sensor patch/sense/code/mac/mac_80211.h:627-675 | a sound RTS is answered by a CTS a SIFS later, with what is left of its duration, exactly outside an exchange and while no session lasts |
| MacReports.CtsSays | combi/final/sensor patch/sense/code/mac/mac_80211.h:678-724 | a sound CTS that is waited for is answered by the data, a SIFS later, and the wait for the acknowledgement begins |
| Rsa.RoundTrip | LEACH/rsa.c:15-33 | for distinct primes, an exponent pair inverse modulo (p-1)(q-1) and any message below p*q, decrypting what was encrypted gives the message |
| Rsa.Session | LEACH/rsa.c:35-66 | the whole program, for keys whose search does not overflow: the private exponent is the least inverse, the cipher is the power, the plain text is the message, and no int overflows |
| Rsa.Search | LEACH/rsa.c:49-55 | if the least inverse is found before a product overflows, the do-while search ends there, below phi |
| Rsa.RoomEnough | LEACH/rsa.c:50-54 | so it is if e and phi are coprime and (phi-1)*e is an int |
| Rsa.SearchEndsIff | LEACH/rsa.c:50-54 | the search for d can end exactly if e and phi have no common factor |
| Rsa.InverseExists | LEACH/rsa.c:50-54 | a number coprime to phi has an inverse below phi |
| Rsa.Check | LEACH/rsa.c:4-13 | the flag says whether both numbers are divisible by three |
| Rsa.CheckMisses | LEACH/rsa.c:4-13 | numbers pass the check and yet have no inverse exactly if they share a prime factor other than three and are not both divisible by three |
| Rsa.CheckMissesTwo | LEACH/rsa.c:4-13 | p = 5, q = 7, e = 2 is such a case |
| Rsa.Power | LEACH/rsa.c:15-33 | the loop of encrypt and decrypt computes the power modulo n without overflow, each product being at most (n-1)^2 |
| DsrNetwork.RunKeeps | combi/final/sensor patch/sense/code/net/dsri.h:155-460 | in every network, over any topology and with any loss, delay and repetition, all frames on the air and all tables are sound in every reachable state |
| DsrNetwork.StepKeeps | combi/final/sensor patch/sense/code/net/dsri.h:155-460 | every send and every reception keeps this, and meets no failing assertion |
| DsrNetwork.NoAssertFails | combi/final/sensor patch/sense/code/net/dsri.h:326-460 | in no run does a route outgrow its array, does a reply miss its node, or do data run out of route |
| DsrNetwork.RequestsInRuns | combi/final/sensor patch/sense/code/net/dsri.h:246-308 | every request on the air came a loop-free way of the topology from its source, and its TTL and hops add up to DSRI_TIMETOLIVE |
| DsrNetwork.ForwardedOnce | combi/final/sensor patch/sense/code/net/dsri.h:271-284 | no node puts the same request on the air twice |
| DsrNetwork.NothingWaitsInVain | combi/final/sensor patch/sense/code/net/dsri.h:355-377 | data never waits at a node that has a route to its destination |
| DsrNetwork.DataArrives | combi/final/sensor patch/sense/code/net/dsri.h:223-243 | every data packet on the air, if nothing is lost, visits a loop-free way of the topology to its destination, in at most ten hops |
| DsrNetwork.TravelFollows | combi/final/sensor patch/sense/code/net/dsri.h:223-243 | it visits exactly the addresses of its route, without the last slot |
| DsrNetwork.DataGoesOn | combi/final/sensor patch/sense/code/net/dsri.h:427-433 | dropping the first hop of a route that has not arrived leaves a route from there |
| DsrNetwork.ReplyLeads | combi/final/sensor patch/sense/code/net/dsri.h:436-451 | what truncate_copy makes of a reply, without the slot too many, is a way from the node to the origin of the reply |
| DsrNetwork.ReplyHeard | combi/final/sensor patch/sense/code/net/dsri.h:326-351 | a node that a reply is sent to is on its route, first on it exactly if the reply is for it |
| DsrNetwork.RreqIsGood | combi/final/sensor patch/sense/code/net/dsri.h:264-323 | whatever a node does with a request keeps frames and tables sound; that it answers or passes on is in DsrLaws.NewRequest |
| DsrNetwork.RrepIsGood | combi/final/sensor patch/sense/code/net/dsri.h:326-379 | so is what it does with a reply |
| DsrNetwork.RrepNodeIsGood | combi/final/sensor patch/sense/code/net/dsri.h:353-378 | after a reply the stored route leads where it says and no data waits for it any more |
| DsrNetwork.DataIsGood | combi/final/sensor patch/sense/code/net/dsri.h:223-243 | and with data |
| DsrNetwork.SendIsGood | combi/final/sensor patch/sense/code/net/dsri.h:155-180 | a send uses a route that leads to the destination, or starts a request with a new number |
| DsrNetwork.ReleasedAre | combi/final/sensor patch/sense/code/net/dsri.h:361-377 | what the flush sends are data packets for the destination, along the route |
| DsrNetwork.StillWaitingAre | combi/final/sensor patch/sense/code/net/dsri.h:361-377 | what it keeps is exactly the data for other destinations |
| DsrLaws.Discovers | combi/final/sensor patch/sense/code/net/dsri.h:155-379 | route discovery: in any reachable network, for any way of at most ten hops whose nodes have not seen the request, a send from its first node, heard along the way and back, leaves the way in that node's cache and all its data for the last node, old and new, on the air along it |
| DsrLaws.ForthArrives | combi/final/sensor patch/sense/code/net/dsri.h:264-323 | a request that is on its way, heard hop by hop, reaches the destination, whose reply gets back |
| DsrLaws.BackArrives | combi/final/sensor patch/sense/code/net/dsri.h:326-379 | a reply that is on its way, heard hop by hop, gets back to the source and releases the data waiting there |
| DsrLaws.NewRequest | combi/final/sensor patch/sense/code/net/dsri.h:264-323 | a node answers a new request that is for it with a reply along the way it came, and passes any other on with itself added and one hop less to go |
| DsrLaws.StaleRequest | combi/final/sensor patch/sense/code/net/dsri.h:267-308 | a node does nothing about a request exactly if it has heard it or a later one, is on its way already, or is neither the destination nor within its reach |
| DsrLaws.DataIsHanded | combi/final/sensor patch/sense/code/net/dsri.h:155-379 | in every run every data packet on the air or waiting carries a payload, source and destination that were handed in together |
| DsrLaws.HopKeeps | combi/final/sensor patch/sense/code/net/dsri.h:223-243 | a node that hears data sends it on with payload, source and destination unchanged and one hop less, and nothing at the destination |
| DsrLaws.SendsAlong | combi/final/sensor patch/sense/code/net/dsri.h:160-166 | with a known route data goes out at once along it |
| DsrLaws.ReplyTeaches | combi/final/sensor patch/sense/code/net/dsri.h:326-379 | after a reply the node knows a route to its origin that is no longer than the one heard of or known, and other routes are as they were |
| DsrLaws.RoutesShrink | combi/final/sensor patch/sense/code/net/dsri.h:353-378 | no step forgets a route, or replaces it but by a shorter one |
| DsrLaws.RunKeepsNoneAhead | combi/final/sensor patch/sense/code/net/dsri.h:155-308 | in every run no node has heard of a request that its source has not made |
| DsrNodes.Position | combi/final/sensor patch/sense/code/net/dsri.h:436-451 | the first place of an address in a route, or -1 exactly if it is not on it |
| Dsri.Path.Clear | combi/final/sensor patch/sense/code/net/dsri.h:61-64 | the empty route |
| Dsri.Path.Append | combi/final/sensor patch/sense/code/net/dsri.h:411-416 | one more address, where there is room |
| Dsri.Path.Copy | combi/final/sensor patch/sense/code/net/dsri.h:419-424 | the same route in another array |
| Dsri.Path.ShiftCopy | combi/final/sensor patch/sense/code/net/dsri.h:427-433 | the route without its first address |
| Dsri.Path.TruncateCopy | combi/final/sensor patch/sense/code/net/dsri.h:436-451 | the part behind the address, plus one slot that keeps what it held; or -1 and nothing changed |
| Dsri.Path.Contain | combi/final/sensor patch/sense/code/net/dsri.h:454-460 | whether the address is on the route |
| Dsri.Node.constructor | combi/final/sensor patch/sense/code/net/dsri.h:139-143 | a node that knows nothing |
| Dsri.Node.FromTransport | combi/final/sensor patch/sense/code/net/dsri.h:155-180 | one step of the node as the network takes it, in place |
| Dsri.Node.InitRrep | combi/final/sensor patch/sense/code/net/dsri.h:311-323 | a reply with the whole route starts back to the last address of the request |
| Dsri.Node.ForwardRrep | combi/final/sensor patch/sense/code/net/dsri.h:338-346 | a reply goes on unchanged to the address before the node on the route |
| Dsri.Node.Cut | combi/final/sensor patch/sense/code/net/dsri.h:330-334 | the part of a route behind the node, through a fresh path |
| Dsri.Path.Of | combi/final/sensor patch/sense/code/net/dsri.h:45-47 | the path that a packet or the cache holds by value |
| Dsri.Path.GetAddr | combi/final/sensor patch/sense/code/net/dsri.h:56-60 | the address at a place of the route; the assertion holds |
| Dsri.Node.ReceiveRreq | combi/final/sensor patch/sense/code/net/dsri.h:264-323 | one step, the duplicate test included, in which a new request is answered or passed on (DsrLaws.NewRequest) |
| Dsri.Node.ReceiveRrep | combi/final/sensor patch/sense/code/net/dsri.h:326-379 | one step, with the assertions on the index |
| Dsri.Node.Flush | combi/final/sensor patch/sense/code/net/dsri.h:361-377 | sends the waiting data for one destination and keeps the rest, in order |
| Dsri.Node.ReceiveData | combi/final/sensor patch/sense/code/net/dsri.h:223-243 | one step, in which data goes on unchanged but for its first hop (DsrLaws.HopKeeps) |
| Engine.Simulation.Run | combi/final/sensor patch/sense/code/common/cost.h:180-217 | for any start, any handlers and any way of picking among equal times: the log is exactly the beginning of what an engine that never stops would activate, up to the first event due at stopTime or later; that one is activated too exactly if statistics are cleared and what comes due first from then on is not due before stopTime; what is pending at the end is what that beginning leaves |
| Engine.Ends | combi/final/sensor patch/sense/code/common/cost.h:199-215 | when the loop ends, a late activation has happened exactly in that case |
| Engine.Advance | combi/final/sensor patch/sense/code/common/cost.h:197-214 | one round of the loop keeps what is known about the activations so far |
| Engine.Simulation.Begin | combi/final/sensor patch/sense/code/common/cost.h:184-196 | the components start and the first event is dequeued |
| Engine.Simulation.Round | combi/final/sensor patch/sense/code/common/cost.h:197-214 | the next event of the story is activated and the one after it dequeued |
| Engine.Story.InOrderOfTime | combi/final/sensor patch/sense/code/common/cost.h:197-214 | what comes due never goes back in time, whatever the handlers set and cancel |
| Engine.Story.NoneOverdue | combi/final/sensor patch/sense/code/common/cost.h:209-213 | after every activation nothing pending is before the clock, so the assertion holds |
| Engine.FallThrough | combi/final/sensor patch/sense/code/common/cost.h:199-207 | a run that clears statistics at 5, stops at 10 and activates just one event, of time 12 |
| Engine.Simulation.Activate | combi/final/sensor patch/sense/code/common/cost.h:291-297 | the flag of the event goes down, then its handler runs at its time |
| Engine.Simulation.Perform | combi/final/sensor patch/sense/code/common/cost.h:261-289 | a handler's sets and cancels, one after the other, keep flags and queue in step; which event they leave pending is in EngineLaws.LastDecides and UnnamedStays |
| Engine.Simulation.SetTimer | combi/final/sensor patch/sense/code/common/cost.h:261-281 | a timer that is set is queued once, at the new time |
| Engine.Simulation.CancelTimer | combi/final/sensor patch/sense/code/common/cost.h:284-289 | a timer that is cancelled is not queued |
| Engine.Simulation.DeQueue | combi/final/sensor patch/sense/code/common/cost.h:196-213 | the earliest pending event, or among several the one picked, or nothing |
| EngineLaws.CancelledStaysOut | combi/final/sensor patch/sense/code/common/cost.h:180-297 | in every run an event whose last mention in some handler is a cancel is not activated until a handler sets it again |
| EngineLaws.LogIs | combi/final/sensor patch/sense/code/common/cost.h:180-217 | every activation of a run is of an event whose setting stands, at the time it was set to, and no setting that stands is earlier; a setting stands while nothing after it names or activates the event |
| EngineLaws.EndsEmptyIff | combi/final/sensor patch/sense/code/common/cost.h:196-213 | a dequeue gives nothing exactly if no setting stands |
| EngineLaws.PendingIff | combi/final/sensor patch/sense/code/common/cost.h:261-297 | an event is pending after any number of activations, at a time, exactly if some handler's setting of it to that time stands |
| EngineLaws.LastDecides | combi/final/sensor patch/sense/code/common/cost.h:261-289 | the last operation of a handler that names an event decides: set, it is pending that much later; cancelled, it is not pending |
| EngineLaws.UnnamedStays | combi/final/sensor patch/sense/code/common/cost.h:261-289 | an event that no operation of a handler names is as it was |
| InfiTimers.InfiTimer.Set | combi/final/sensor patch/sense/code/common/cost.h:462-487 | schedules the event of a slot that was not in use, and no other; the free slots stay exactly those whose flag is down, without repeats |
| InfiTimers.InfiTimer.GetSlot | combi/final/sensor patch/sense/code/common/cost.h:509-516 | takes a free slot off the stack, doubling the slots if there is none |
| InfiTimers.InfiTimer.Grow | combi/final/sensor patch/sense/code/common/cost.h:447-460 | new slots are free and pushed once; old ones are as they were |
| InfiTimers.InfiTimer.Cancel | combi/final/sensor patch/sense/code/common/cost.h:490-497 | the event, which was active as asserted, leaves the engine and its slot becomes free |
| InfiTimers.InfiTimer.Activate | combi/final/sensor patch/sense/code/common/cost.h:500-506 | an event that the engine has dequeued puts its flag down and its slot back |
| InfiTimers.InfiTimer.OneLess | combi/final/sensor patch/sense/code/common/cost.h:490-506 | a flag that goes down frees one slot of its timer and no other |
| InfiTimers.InfiTimer.constructor | combi/final/sensor patch/sense/code/common/cost.h:432-437 | one free slot, in an engine where no event of this timer is active |
| ShrInvariant.RunKeeps | combi/final/sensor patch/sense/code/net/shr.h:889-1007 | in every run m_mac_busy holds exactly while one task is under way (transition, MAC deferring or sending, or MAC acknowledgement pending); no MAC acknowledgement is a refusal; the delay left plus IFS is not negative; no deadline is past; no packet is lost |
| ShrInvariant.StepKeeps | combi/final/sensor patch/sense/code/net/shr.h:889-1007 | every timer, reception, submission and cancellation keeps this |
| ShrInvariant.StartKeeps | combi/final/sensor patch/sense/code/mac/bcast_mac.h:224-235 | it holds at the start |
| ShrInvariant.FromNetworkKeeps | combi/final/sensor patch/sense/code/mac/bcast_mac.h:242-269 | a packet handed to the MAC while no task is under way is not refused |
| ShrInvariant.TransitKeeps | combi/final/sensor patch/sense/code/net/shr.h:1000-1007 | so the MAC does not refuse the packet that comes out of the transition |
| ShrInvariant.CancelKeeps | combi/final/sensor patch/sense/code/net/shr.h:1658-1722 | cancelling replaces a deferral by a pending acknowledgement, or drops one waiting packet, or does nothing |
| ShrInvariant.FromMacAckKeeps | combi/final/sensor patch/sense/code/net/shr.h:1729-1800 | after an acknowledgement the active packet is done, resent or delayed, and the next one starts if there is one |
| ShrInvariant.SendPacketKeeps | combi/final/sensor patch/sense/code/net/shr.h:889-905 | one more packet waits out its delay, is queued, or is in the MAC's hands |
| ShrInvariant.AssignKeeps | combi/final/sensor patch/sense/code/net/shr.h:930-964 | a packet goes to the MAC exactly if it is not busy, else into the queue |
| ShrInvariant.EnqueuedAt | combi/final/sensor patch/sense/code/net/shr.h:852-861 | a packet is queued behind all whose delay is not greater and before the first whose delay is |
| ShrInvariant.EnqueuedIs | combi/final/sensor patch/sense/code/net/shr.h:852-861 | the queue gains the packet and nothing else |
| ShrInvariant.EnqueuedKeeps | combi/final/sensor patch/sense/code/net/shr.h:852-861 | the queue stays in order of delay |
| ShrInvariant.PhyKeeps | combi/final/sensor patch/sense/code/mac/bcast_mac.h:342-413 | a suspended deferral keeps its remaining delay within IFS of zero |
| ShrInvariant.ResumeKeeps | combi/final/sensor patch/sense/code/mac/bcast_mac.h:537-545 | a resumed deferral ends no earlier than now |
| ShrInvariant.RecvKeeps | combi/final/sensor patch/sense/code/mac/bcast_mac.h:416-515 | so does the end of a reception, whatever SHR then does |
| ShrInvariant.ActsKeep | combi/final/sensor patch/sense/code/net/shr.h:807-842 | any calls by SHR's own logic, in any order |
| ShrLaws.SendingSays | combi/final/sensor patch/sense/code/mac/bcast_mac.h:272-325 | in every run, when a sending is over: if nothing was heard since it began, or the packet is an acknowledgement, it is done with and the next one goes; else the same packet goes again, at once or after a slot |
| ShrLaws.CancelledIsDone | combi/final/sensor patch/sense/code/mac/bcast_mac.h:319-339 | a packet whose deferral was cancelled is done with |
| ShrLaws.RunCarries | combi/final/sensor patch/sense/code/mac/bcast_mac.h:242-316 | in every run the MAC and the transition timer carry the active packet, and while sending the collision flag says exactly whether anything was heard since |
| ShrLaws.FromMacAckSays | combi/final/sensor patch/sense/code/net/shr.h:1729-1800 | what SHR does about either outcome |
| ShrLaws.AssignSays | combi/final/sensor patch/sense/code/net/shr.h:930-964 | a packet enters under the next number if it is new and this node's own, and is under way at once or queued behind those whose delay is not greater |
| ShrLaws.SubmitSays | combi/final/sensor patch/sense/code/net/shr.h:889-905 | a packet with a delay waits it out, one without enters |
| ShrLaws.DelaySays | combi/final/sensor patch/sense/code/net/shr.h:912-921 | in every run a packet enters when its delay is over |
| ShrLaws.TransitSays | combi/final/sensor patch/sense/code/net/shr.h:1000-1007 | in every run the packet is with the MAC when the transition is over |
| ShrLaws.DeferSays | combi/final/sensor patch/sense/code/mac/bcast_mac.h:272-309 | in every run the active packet is on the air when the deferral is over |
| ShrLaws.CancelActive | combi/final/sensor patch/sense/code/net/shr.h:1658-1680 | cancelling the active packet ends its deferral, unless it is an acknowledgement or past deferring |
| ShrLaws.CancelWaiting | combi/final/sensor patch/sense/code/net/shr.h:1681-1722 | else the first such packet that waits out its delay is dropped, or else the first in the queue unless it is an acknowledgement |
| ShrReception.HearsSays | combi/final/sensor patch/sense/code/mac/bcast_mac.h:416-515 | in every run SHR hears of a frame at its end exactly if it came clear, the node sent nothing since it began, and its number is not that of the frame taken last from its sender |
| ShrReception.ReceptionIs | combi/final/sensor patch/sense/code/mac/bcast_mac.h:342-413 | what is being received is a frame whose start was heard, and it is without error exactly if it came clear of all that was heard around it |
| ShrReception.ClearIsReceived | combi/final/sensor patch/sense/code/mac/bcast_mac.h:342-413 | a frame that comes clear is what is being received until it ends |
| ShrReception.CacheIs | combi/final/sensor patch/sense/code/mac/bcast_mac.h:478-515 | the numbers remembered are those of the frames taken last, told by the history alone |
| ShrReception.DeferralIs | combi/final/sensor patch/sense/code/mac/bcast_mac.h:518-545 | in every run a deferral ends when its delay, less the time spent deferring before, is over, with IFS on top after a reception |
| ShrReception.StepDefers | combi/final/sensor patch/sense/code/mac/bcast_mac.h:342-545 | how each event starts, suspends or resumes a deferral |
| ShrStack.Stack.constructor | combi/final/sensor patch/sense/code/mac/bcast_mac.h:224-235 | the two components at the start |
| ShrStack.Stack.FromNetwork | combi/final/sensor patch/sense/code/mac/bcast_mac.h:242-269 | as the state machine, with the assertion on the acknowledgement timer |
| ShrStack.Stack.StartDefer | combi/final/sensor patch/sense/code/mac/bcast_mac.h:518-534 | as the state machine, with both assertions |
| ShrStack.Stack.ResumeDefer | combi/final/sensor patch/sense/code/mac/bcast_mac.h:537-545 | as the state machine, with the assertion on the timer |
| ShrStack.Stack.MacCancel | combi/final/sensor patch/sense/code/mac/bcast_mac.h:329-339 | as the state machine, with the assertion on the acknowledgement timer |
| ShrStack.Stack.DeferFires | combi/final/sensor patch/sense/code/mac/bcast_mac.h:272-309 | takes the step in place and keeps the invariant; the state is DEFER as asserted |
| ShrStack.Stack.FromPhy | combi/final/sensor patch/sense/code/mac/bcast_mac.h:342-413 | takes the step in place and keeps the invariant; the timer is active as asserted |
| ShrStack.Stack.RecvFires | combi/final/sensor patch/sense/code/mac/bcast_mac.h:416-515 | takes the step in place and keeps the invariant |
| ShrStack.Stack.SendFires | combi/final/sensor patch/sense/code/mac/bcast_mac.h:312-316 | takes the step in place and keeps the invariant; what the step does with the packet is in ShrLaws.SendingSays |
| ShrStack.Stack.AckFires | combi/final/sensor patch/sense/code/mac/bcast_mac.h:319-325 | takes the step in place and keeps the invariant |
| ShrStack.Stack.SendToMac | combi/final/sensor patch/sense/code/net/shr.h:977-991 | as the state machine |
| ShrStack.Stack.TransitFires | combi/final/sensor patch/sense/code/net/shr.h:1000-1007 | takes the step in place and keeps the invariant |
| ShrStack.Stack.AddToSendQueue | combi/final/sensor patch/sense/code/net/shr.h:852-861 | the walk and the insertion put the packet where the specification says |
| ShrStack.Stack.AssignSeqNumber | combi/final/sensor patch/sense/code/net/shr.h:930-964 | as the state machine, the new sequence number included |
| ShrStack.Stack.SendPacket | combi/final/sensor patch/sense/code/net/shr.h:889-905 | as the state machine |
| ShrStack.Stack.DelayFires | combi/final/sensor patch/sense/code/net/shr.h:912-921 | takes the step in place and keeps the invariant |
| ShrStack.Stack.CancelPacket | combi/final/sensor patch/sense/code/net/shr.h:1658-1722 | as the state machine: active, delayed, then queued packets, acknowledgements spared |
| ShrStack.Stack.FromMacAck | combi/final/sensor patch/sense/code/net/shr.h:1729-1800 | as the state machine, for both kinds of backoff |
| ShrStack.Stack.Acts | combi/final/sensor patch/sense/code/net/shr.h:807-842 | any calls by SHR's own logic keep the invariant |
| CParser.Translate | combi/final/sensor patch/sense/code/compc++/parser.cpp:219-296 | for any program without components: what is printed, and how many errors are reported, is determined by the token types, with every construct that ends in an exception lost; no exception comes up exactly if the token types are accepted, and then what is printed is the texts of the tokens one after the other |
| CParser.AcceptedIsPrinted | combi/final/sensor patch/sense/code/compc++/parser.cpp:225-296 | from any place on, what is accepted is printed token by token |
| CParserLaws.WhatIsPrinted | combi/final/sensor patch/sense/code/compc++/parser.cpp:219-296 | however a text splits into constructs and failures: printed are the constructs in order, less the templates that a failing function took along; errors are the failures and the ports; and it is accepted exactly if there are no failures |
| CParserLaws.ReadingExists | combi/final/sensor patch/sense/code/compc++/parser.cpp:225-289 | every text splits so |
| CParserLaws.ConstructIff | combi/final/sensor patch/sense/code/compc++/parser.cpp:232-276 | the parser gets from one place to another exactly if a construct lies between them, by a grammar without loops or levels |
| CParserLaws.FailureIff | combi/final/sensor patch/sense/code/compc++/parser.cpp:277-289 | it fails exactly if no construct begins there, and goes on where an opening bracket was missing, or else nowhere |
| CParserLaws.PairIff | combi/final/sensor patch/sense/code/compc++/parser.cpp:126-141 | the level counter finds the first place up to which as many brackets close as open, exactly if there is one |
| CParserLaws.TemplateIff | combi/final/sensor patch/sense/code/compc++/parser.cpp:310-320 | a template is one or two bracketed heads with something behind them |
| CParserLaws.FunctionIff | combi/final/sensor patch/sense/code/compc++/parser.cpp:1051-1066 | a function is an argument list, then everything up to a semicolon, or to a body and that |
| CParserLaws.VaridIff | combi/final/sensor patch/sense/code/compc++/parser.cpp:1027-1067 | a declaration is an identifier and everything up to the first bracket, semicolon or colon, and a function behind a bracket |
| CParserLaws.PrintedFrom | combi/final/sensor patch/sense/code/compc++/parser.cpp:225-296 | the same as the first from any place on, with a template in hand that is lost exactly if a function with a head fails before anything else is kept |
| CParser.Parser.Parse | combi/final/sensor patch/sense/code/compc++/parser.cpp:225-289 | the main loop, exceptions included: the trees of the program at the end print as the specification says |
| CParser.Parser.ParseOne | combi/final/sensor patch/sense/code/compc++/parser.cpp:232-289 | one construct, kept, or lost by an exception after which reading goes on where it stopped |
| CParser.Parser.ParseNext | combi/final/sensor patch/sense/code/compc++/parser.cpp:232-276 | one construct: what the program printed before plus the new tree prints as the tokens read |
| CParser.Parser.ParseTemplate | combi/final/sensor patch/sense/code/compc++/parser.cpp:310-320 | a template with its brackets becomes one tree that prints as its tokens |
| CParser.Parser.ParseVarid | combi/final/sensor patch/sense/code/compc++/parser.cpp:1027-1148 | an identifier with what follows: a function, whose tree may take a waiting template along, or a piece of a declaration |
| CParser.Parser.ParseHead | combi/final/sensor patch/sense/code/compc++/parser.cpp:1030-1039 | the identifier and everything up to a bracket, semicolon or colon |
| CParser.Parser.ParseRest | combi/final/sensor patch/sense/code/compc++/parser.cpp:1040-1067 | a function, or the end of a piece of a declaration; a function that does not end loses the template it had taken |
| CParser.Parser.ParseFunction | combi/final/sensor patch/sense/code/compc++/parser.cpp:1042-1067 | a function or its declaration, with its template |
| CParser.Parser.FinishFunction | combi/final/sensor patch/sense/code/compc++/parser.cpp:1051-1066 | argument list, then semicolon or body |
| CParser.Parser.AppendTail | combi/final/sensor patch/sense/code/compc++/parser.cpp:1053-1066 | everything up to a semicolon or a body, and that |
| CParser.Parser.TakeTemplate | combi/final/sensor patch/sense/code/compc++/parser.cpp:1044-1049 | a template at the end of the program moves into the function's tree |
| CParser.Parser.ParseFunctBody | combi/final/sensor patch/sense/code/compc++/parser.cpp:1235-1288 | a body with balanced braces becomes one tree; unbalanced ones throw |
| CParser.Parser.MatchPair | combi/final/sensor patch/sense/code/compc++/parser.cpp:126-141 | from a bracket to the one that closes it, as a chain; an exception exactly if there is none |
| CParser.Parser.Round | combi/final/sensor patch/sense/code/compc++/parser.cpp:131-137 | the level of nesting counted token by token finds the closing bracket |
| CParser.Parser.Match | combi/final/sensor patch/sense/code/compc++/parser.cpp:118-124 | the next token exactly if it has the type asked for |
| CParser.Parser.MatchAny | combi/final/sensor patch/sense/code/compc++/parser.cpp:82-116 | the next token as the scanner made it |
| CParser.Parser.WriteProgram | combi/final/sensor patch/sense/code/compc++/parser.cpp:1289-1296 | prints the trees in order and empties the program |
| CTokens.CToken.AppendChild | combi/final/sensor patch/sense/code/compc++/token.cpp:77-97 | the chain goes behind the children, last_child is at the end as asserted, and all other trees keep their shape |
| CTokens.CToken.InsertChild | combi/final/sensor patch/sense/code/compc++/token.cpp:99-115 | the chain goes before the children, with all three assertions |
| CTokens.CToken.Write | combi/final/sensor patch/sense/code/compc++/token.cpp:134-143 | prints a tree and the rest of its chain in preorder |
| CTokens.CToken.FindLast | combi/final/sensor patch/sense/code/compc++/token.cpp:79-81 | the walk ends at last_child |
| CTokens.OutsConcat | combi/final/sensor patch/sense/code/compc++/token.cpp:134-143 | two chains joined print as the one and then the other |
| FloodNetwork.AtMostOnce | combi/final/sensor patch/sense/code/net/flooding.h:286-386 | in every flooding network each node transmits a given source and number at most once and delivers it at most once |
| FloodNetwork.RunKeeps | combi/final/sensor patch/sense/code/net/flooding.h:286-414 | in every reachable network whatever a node transmitted or delivered it has seen, and no number is ahead of its source |
| FloodNetwork.StepKeeps | combi/final/sensor patch/sense/code/net/flooding.h:286-414 | every event keeps this |
| FloodNetwork.SendKeeps | combi/final/sensor patch/sense/code/net/flooding.h:286-324 | a new packet has a number nobody has seen from this source |
| FloodNetwork.HearKeeps | combi/final/sensor patch/sense/code/net/flooding.h:331-386 | a received packet is passed on or handed up only if it had not been seen |
| FloodLaws.Hears | combi/final/sensor patch/sense/code/net/flooding.h:331-386 | after any run a node that hears a packet hands it up if it is new and for it or for all, passes it on if it is new, for another, and the MAC is not busy, and does nothing else; new meaning not given before and not too old |
| FloodLaws.NewIff | combi/final/sensor patch/sense/code/net/flooding.h:339-347 | a node takes a packet for seen exactly by the numbers it was given from that source |
| FloodLaws.Sends | combi/final/sensor patch/sense/code/net/flooding.h:286-324 | a node's own packet goes on the air under the next number, or is dropped while the MAC is busy |
| FloodLaws.DeliveredIsFor | combi/final/sensor patch/sense/code/net/flooding.h:351-376 | in every run what is handed up is for the node it is handed up at, or for all |
| FloodLaws.PassedOnIsForOthers | combi/final/sensor patch/sense/code/net/flooding.h:351-386 | in every run what a node puts on the air is its own, or for others only |
| SeqWindows.AgreesWithSet | combi/final/sensor patch/sense/code/net/flooding.h:221-234 | after any checks the next answers "seen" exactly if the number is sizeof(unsigned long) or more behind or was given before |
| SeqWindows.RunMirrors | combi/final/sensor patch/sense/code/net/flooding.h:221-234 | within that distance the bits are exactly the numbers given |
| SeqWindows.CurrentIsLargest | combi/final/sensor patch/sense/code/net/flooding.h:224-228 | current is the largest number given, or zero |
| SeqWindows.MaskedAgrees | combi/final/sensor patch/sense/code/net/flooding.h:226-233 | a machine that takes the shift count modulo 32 does the same while jumps are below 32 |
| SeqWindows.MaskedRunAlikeIff | combi/final/sensor patch/sense/code/net/flooding.h:221-234 | all along a run such a machine answers as the set of numbers does exactly if every jump of 32 or more leaves, modulo 32, enough to move all numbers given out of reach |
| SeqWindows.HarmlessIff | combi/final/sensor patch/sense/code/net/flooding.h:224-228 | which, once the largest number is one that was given, means a jump below 32 or one that leaves at least sizeof(unsigned long) modulo 32 |
| SeqWindows.ShortJumpsAreHarmless | combi/final/sensor patch/sense/code/net/flooding.h:224-228 | a run without jumps of 32 or more is such a run |
| SeqWindows.MaskedForgets | combi/final/sensor patch/sense/code/net/flooding.h:224-233 | given 1 and 34, such a machine takes 33 for seen, which was never given |
| SeqWindows.HarmfulStep | combi/final/sensor patch/sense/code/net/flooding.h:224-233 | after any other jump a wrong answer can be had |
| SeqWindows.SeqNumber.Check | combi/final/sensor patch/sense/code/net/flooding.h:221-234 | answers and updates as the window specification says |
| FloodNetwork.BusyKeeps | combi/final/sensor patch/sense/code/net/flooding.h:394-414 | whether the MAC is taken for busy, by an acknowledgement or a delayed departure, changes nothing that was seen, sent or handed up |
| FloodNetwork.Flooding.constructor | combi/final/sensor patch/sense/code/net/flooding.h:262-270 | an idle node with an empty window of its own |
| FloodNetwork.Flooding.Check | combi/final/sensor patch/sense/code/net/flooding.h:339-347 | the window of the source, made if it was not there |
| FloodNetwork.Flooding.FromTransport | combi/final/sensor patch/sense/code/net/flooding.h:286-324 | a step of the network in place |
| FloodNetwork.Flooding.FromMacData | combi/final/sensor patch/sense/code/net/flooding.h:331-386 | a step of the network in place; who gets what is in FloodLaws.Hears |
| CorsaAllocators.CorsaAllocator.Alloc | combi/final/sensor patch/sense/code/common/corsa_alloc.h:151-207 | gives a block that was not live and makes it so; another segment is added exactly when all blocks are live |
| CorsaAllocators.CorsaAllocator.Free | combi/final/sensor patch/sense/code/common/corsa_alloc.h:209-233 | a live block becomes free and no other does |
| CorsaAllocators.CorsaAllocator.AddSegment | combi/final/sensor patch/sense/code/common/corsa_alloc.h:158-192 | twice the last segment, through growth of the table; live and free blocks still partition all blocks and capacity is the first size times 2^k - 1 |
| CorsaAllocators.CorsaAllocator.ExtendTable | combi/final/sensor patch/sense/code/common/corsa_alloc.h:161-180 | a table twice as long with the same segments |
| CorsaAllocators.CorsaAllocator.InitSegment | combi/final/sensor patch/sense/code/common/corsa_alloc.h:138-149 | the blocks of the segment in order become the free list |
| CorsaAllocators.CorsaAllocator.constructor | combi/final/sensor patch/sense/code/common/corsa_alloc.h:111-136 | one segment of at least sixteen free blocks |
| CorsaAllocators.DoubleCapacity | combi/final/sensor patch/sense/code/common/corsa_alloc.h:181-192 | segments that double add up to the first size times 2^k - 1 |
| CorsaAllocators.PartitionMore | combi/final/sensor patch/sense/code/common/corsa_alloc.h:138-149 | with no block free, a fresh segment's blocks join those that are partitioned |
| CorsaAllocators.SegmentHas | combi/final/sensor patch/sense/code/common/corsa_alloc.h:138-149 | the thread through a segment visits each of its blocks once |
| SmartPackets.FreeIff | combi/final/sensor patch/sense/code/common/sense.h:207-213 | while counts are right a block is free exactly if no owner has a handle of it and no live packet wraps it |
| SmartPackets.FreeKeeps | combi/final/sensor patch/sense/code/common/sense.h:202-214 | freeing one handle keeps every count equal to the handles plus the counts of the live packets around it |
| SmartPackets.ReleasedKeeps | combi/final/sensor patch/sense/code/common/sense.h:202-214 | freeing changes nothing of a packet that stays but its count, which does not grow, and touches no free block |
| SmartPackets.IncRefKeeps | combi/final/sensor patch/sense/code/common/sense.h:234-239 | so does taking one more reference, at every depth of nesting |
| SmartPackets.LastGoes | combi/final/sensor patch/sense/code/common/sense.h:207-213 | when the last reference goes the payload is left with one handle more |
| SmartPackets.FreeCommutes | combi/final/sensor patch/sense/code/common/sense.h:202-214 | it does not matter whether the payload's reference goes before or after the packet's own |
| SmartPackets.AllocKeeps | combi/final/sensor patch/sense/code/common/sense.h:169-176 | a new packet has one reference and wraps nothing |
| SmartPackets.WrapKeeps | combi/final/sensor patch/sense/code/common/sense.h:183-193 | a payload put into a packet passes from its owner's hands into the packet's |
| SmartPackets.Packets.constructor | combi/final/sensor patch/sense/code/common/sense.h:161 | before anything is allocated every block is free and nobody has a handle |
| SmartPackets.Packets.Alloc | combi/final/sensor patch/sense/code/common/sense.h:169-176 | a free block becomes a packet that its owner has one handle of |
| SmartPackets.Packets.Wrap | combi/final/sensor patch/sense/code/common/sense.h:183-193 | the owner's handle of the payload becomes the packet's |
| SmartPackets.Packets.Copy | combi/final/sensor patch/sense/code/common/sense.h:183-193 | a new packet around the same payload; no other owner's handles change |
| SmartPackets.Packets.IncRef | combi/final/sensor patch/sense/code/common/sense.h:234-239 | one more handle for the caller, none for anyone else |
| SmartPackets.Packets.IncPldRef | combi/final/sensor patch/sense/code/common/sense.h:249-252 | one more handle of the payload if there is one, else nothing |
| SmartPackets.Packets.Free | combi/final/sensor patch/sense/code/common/sense.h:202-214 | one handle less for the caller, none less for anyone else |
| SmartPackets.Packets.IncrementRef | combi/final/sensor patch/sense/code/common/sense.h:234-239 | the walk down the nesting adds one at every level |
| SmartPackets.Packets.FreeRef | combi/final/sensor patch/sense/code/common/sense.h:202-214 | the walk down the nesting takes one away at every level and frees what has none left |
| FlowQueues.FlowQueue.Enque | dos1/ns2-integration/robustfairblue.cc:70-104 | the list without the flow, followed by the flow, the oldest evicted if there is no room; tail is the last node |
| FlowQueues.FlowQueue.Deque | dos1/ns2-integration/robustfairblue.cc:106-135 | takes out the item at an index if there is one, the second for a negative index; tail stays the last node exactly if the last item was not the one |
| FlowQueues.FlowQueue.Find | dos1/ns2-integration/robustfairblue.cc:137-151 | the first place of the flow, or -1 exactly if it is not there |
| FlowQueues.FlowQueue.MoveToEnd | dos1/ns2-integration/robustfairblue.cc:74-92 | the new item is appended before the old one is taken out, so tail is never left dangling |
| FlowQueues.FlowQueue.Append | dos1/ns2-integration/robustfairblue.cc:77-88 | one more item at the end |
| FlowQueues.FlowQueue.constructor | dos1/ns2-integration/robustfairblue.cc:53-58 | an empty list |
| FlowLaws.RemembersMostRecent | dos1/ns2-integration/robustfairblue.cc:70-104 | after any run of enques the list holds the flows used last, each as it was used last, in order of these uses, and as many of them as fit |
| FlowQueues.UsedKeeps | dos1/ns2-integration/robustfairblue.cc:70-104 | the list holds no flow twice, never more than maxsize, and ends with the flow used last |
| FlowQueues.WithoutAt | dos1/ns2-integration/robustfairblue.cc:106-127 | with no repeats, taking the flow out is leaving its one place out |
| FlowQueues.WithoutKeeps | dos1/ns2-integration/robustfairblue.cc:106-127 | taking a flow out keeps all others and repeats none |

## Left out

Not captured by the members that model the code:

- CalendarQueues.CalendarQueue.NewWidth: calls the parts of enqueue and dequeue that do not resize, which is all they do while `resizable` is false; the sample buffer is a sequence that holds the non-zero gaps, where the source also writes a zero gap and overwrites it.
- QueueAgreement.RunAll: which of several events of one time a heap or a calendar gives first is left open, and so is agreement of the queues where such events are deleted or queued again; events of negative time are excluded for the calendar queue, whose slots start at zero.
- MacRuns.RunKeeps: assumes the frame kinds that this MAC sends itself, with positive duration on the air, and positive rates, lengths, SIFS and slot time; durations are rounded to sixteen-bit microseconds and counters wrap as in the source; reference counts of packets and statistics are not in the state.
- MacStation.StationRunKeeps: for a buffering queue (NoBuffer false); the other setting is covered by the contracts of FifoAck only.
- Mac80211.Mac.FromNetwork: the fields that change together are grouped into records, and calls to other components, which are the last thing each handler does, are recorded and not nested.
- Rsa.Session: keys and messages for which no int overflows; for others the behaviour of the program is undefined. Input and output are arguments and results.
- Rsa.Search: requires that the least inverse exists and is found before a product overflows; Rsa.SearchEndsIff shows that without an inverse the loop does not end.
- DsrNetwork.RunKeeps: the random delay before a request is forwarded is part of the arbitrary delay of frames; packet sizes, statistics and overflow of request numbers are left out.
- Dsri.Node.ReceiveRrep: tables and packets hold routes by value, as sequences; the handlers work on them through Dsri.Path. The slot too many, which the source leaves uninitialised, is zero; it is never read.
- Engine.Simulation.Run: the queue is the set of pending events, which is what each queue class is proved to be, with an arbitrary choice among equal times; handlers are a list of sets and cancels with delays that are not negative; measuring of real time and printing are left out.
- Engine.Simulation.SetTimer: the data that a timer carries; the events of a MultiTimer are events like any other.
- InfiTimers.InfiTimer.Set: the data that goes with the event.
- ShrInvariant.RunKeeps: what SHR decides on hearing a packet (election, backoff, hop counts, waiting for acknowledgements and its timer) appears as arbitrary submissions with any non-negative delay and arbitrary cancellations; frames other than data, and reference counts, are left out; IFS, transition time and slot width are not negative.
- CParser.Translate: no components, connect statements, ports or typename declarations, and no line information; a null result stands for an exception, which of the two being told by whether tokens are left; the scanner is not part of this model.
- CParser.Parser.MatchAny: with no component declared its conversion of identifiers never applies.
- CTokens.CToken.InsertChild: only used for components, so proved by itself.
- SeqWindows.AgreesWithSet: integers are unbounded, and a shift by 32 or more is taken to clear.
- FloodNetwork.AtMostOnce: a delayed departure is one event that marks the MAC busy; the packet itself counts as transmitted when its departure is arranged.
- CorsaAllocators.CorsaAllocator.Alloc: blocks are segment and place, not raw addresses; the non-debug build only.
- SmartPackets.Packets.Free: `destroy`, which ignores the count, is left out, as are headers; each handle is freed once, by its owner.
- FlowQueues.FlowQueue.Enque: for a positive maxsize; with another the source keeps nothing.
- FlowQueues.FlowQueue.Deque: a negative index with fewer than two items, for which the source follows a null pointer.

Not modelled, because it would only add easy members, repeats what is
modelled, or is not decided by the code:

- ErrorQueue, GuardedQueue and the printers that validate queues: debugging aids.
- AODV: several header fields are forwarded unset.
- ASHR and SSAB: an unfinished copy of SHR, and the flooding window again.
- SHR's backoff formulas, hop-count tables, visualizer and statistics.
- The channel, propagation, battery, power manager and mobility.
- Code generation, components and connections of CompC++, and its scanner.
- The ns-2 agents and the FairBlue queue around FlowQueue.
- Debug branches, floating-point rounding, configuration, traces and scripts.
