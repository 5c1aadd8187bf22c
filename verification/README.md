# Verification of the latency profiler

The profiler pushes timestamped events from three layers (network card, kernel, WebSocket
client) into a ring in shared memory. A correlation thread pops them, keeps a window per layer,
matches each user event with a kernel event and that with a NIC event, and reports the latencies
in between. An asynchronous writer puts the records into a log file that a script reads back.
This project models that path in Dafny and proves what it delivers. `dafny verify dfyconfig.toml`
checks everything.

## What is proved

**The shared ring** (`RingMachine`, `RingFifo`, `RingLinear`, `RingRaces`, `RingRuns`,
`RingOverlaps`, `RingLog`, `SharedQueue`, `MachineWords`). Any number of pushers and one popper are
machines of single accesses: a counter load, a counter store, one copied word. They interleave
freely, the counters are the wrapping 64-bit ones of the source, and each side's load of the other
side's counter may return any value it has held (more than acquire/release permits). When pushes
take turns and each loads the newest `head`, the ring is a bounded FIFO: popped events are word for
word a prefix of the accepted ones, no slot is read while it is written, and the logged operations
linearize; every call is logged once, and a refused call was right about the counter value it read.
The profiler's README calls the ring MPMC, but the code has no compare-and-swap. The exact condition
on a ring with slots that somebody pushes to: every run is first in, first out if and only if pushes
take turns (or only one process pushes) and each push loads the newest `head`. A push that loads an
old `head` overwrites an event even without overlap. Two overlapping pushes can lose an event, tear
one, or leave `head` behind `tail`. A ring wedged in that way stays so in every continuation exactly
when loads return the latest value; a push that reads an old `tail` frees it. What survives overlap
is that every popped word was pushed. The FIFO theorem needs fewer than 2^64 accepted pushes, and
that bound is exact: no run pops 2^64 events.

**The correlator** (`Matching`, `Latency`, `Correlator`, `Multiplicity`, `MessageHandler`). Both
search loops refine one declarative choice (first exact sequence number, else first nearest earlier
timestamp). A pass works on exactly the last 4096 events of each kind, agrees with a search of the
whole history whenever the chosen events are still there, and reports every matched user event once.
Over a run a user event is reported, and logged, once for each pass that finds it among the last
4096 and matched, which can be many times. Timelines do not cross: kernel times keep the order of
user times; NIC times keep that of two kernel events exactly when those carry the same sequence
number (the edges of the clock aside). Each latency is the difference of the two clock readings it
is named after; the displayed total equals the five segments plus clock drift exactly when the NIC,
kernel and user times are in order.

**The log** (`AsyncLog`, `LogFormat`, `LogReader`, `LogRoundTrip`). For every interleaving of
submitting threads and writer thread no line is lost, repeated or reordered, the drain ends, and the
script's six leftmost searches recover exactly the values written. The condition on symbols is
exact: the symbol must contain no match of one of the six patterns; having no `=` suffices, and
blanks and line breaks are harmless.

**The capture side** (`RecvProbes`, `PacketParser`, `LoaderCopy`) and the subscription message
(`Subscribe`). Every event the probes submit is the right one for its own thread's call, in every
interleaving, exactly when missed entry probes and missed return probes are not both possible; and
no event is missing exactly when no probe is missed, at most 1024 threads are inside the call and
reservations succeed. The header parser accepts exactly the frames of a reference builder; the
loader's byte copy keeps the layer timestamps and misplaces everything after them; the subscription
message can be taken apart again.

**End to end** (`Provenance`, `EndToEnd`). From callback numbering through the ring to each pass,
and on through the writer thread to the script's lists: each row of those consists of clock
differences that one message, the latest kernel event not after it and that one's NIC event brought,
provided no message's symbol contains a match of the patterns.

## How the model is built

State that the source updates in place is a class whose methods are specified by functions of the
old state; concurrency is a machine with one action per shared access or per step under the mutex.
Clock readings, payload fields and the outcome of reservations are inputs. Where a run is quantified
over, `Exec` folds a list of actions; empty pops and sleeps change nothing and are not actions of
their own.

## Model

| member | source | states |
|---|---|---|
| MachineWords.PowerOfTwoTest | shared_events.h:64-67 | the creation check admits exactly 0 and the powers of two, 64-bit wrap included |
| MachineWords.MaskIsMod | shared_events.h:125 | for a power of two, masking is the remainder, so slots are addressed modulo the capacity |
| SharedQueues.Create | shared_events.h:63-95 | a queue results exactly when the mapping works and the capacity passes, and it is empty |
| SharedQueues.SharedQueue.Push | shared_events.h:117-130 | refuses exactly when full, otherwise appends to the contents; the one push that wraps the counter breaks the frame |
| SharedQueues.SharedQueue.Pop | shared_events.h:133-146 | refuses exactly when empty, otherwise removes and returns the oldest event |
| RingMachine.SlotInRing | shared_events.h:125-126 | every slot address formed while copying lies inside the ring |
| RingMachine.NextWellFormed | shared_events.h:117-146 | no access of any interleaving, overlapping pushes included, leaves the layout of the ring |
| RingFifo.StepKeepsInv | shared_events.h:117-146 | each single access keeps counters, contents, partial copies and their disjointness, also with stale counter loads |
| RingFifo.FifoForEveryInterleaving | shared_events.h:117-146 | popped is a word-for-word prefix of accepted, accepted is in call order, fill level within 0 and capacity, no slot read while written |
| RingFifo.CapacityZeroRefusesAll | shared_events.h:65-92 | a ring of capacity 0 refuses everything and never addresses a slot |
| RingLinear.StepKeepsLegal | shared_events.h:118-144 | the access that decides a call is where the sequential FIFO performs it |
| RingLinear.Linearizable | shared_events.h:118-144 | every history is a legal FIFO run respecting real time, each answer truthful; with latest-value loads refusals are truthful too |
| RingLog.EveryCallIsLoggedOnce | shared_events.h:117-146 | in every run under any discipline each push and each pop called is logged exactly once or still undecided, so that history is complete |
| RingLog.StampsTellWhenCallsBegan | shared_events.h:117-146 | calls begun after a quiet point are stamped as begun after every operation logged before it, which keep their stamps |
| RingLog.StampsTellWhenCallsReturned | shared_events.h:117-146 | an answer is stamped with at least the number of operations logged when any earlier point of the run was passed |
| RingLog.RefusalsAreRightAboutTheirLoad | shared_events.h:121-139 | a push that reads tail value i is refused exactly when accepted minus i reaches the capacity, a pop that reads head value i exactly when i events are popped already, however stale the load |
| RingRaces.PoppedWordsWereGiven | shared_events.h:117-146 | even with overlapping pushes each popped word was pushed in that place; with one-word events every popped event was pushed |
| RingOverlaps.OverlappingPushesLoseAnEvent | shared_events.h:118-128 | for every capacity and width, a run where two pushes return true, head moves by one and one event is gone |
| RingOverlaps.OverlappingPushesTearAnEvent | shared_events.h:118-128 | a run whose popped event is part one event and part the other |
| RingOverlaps.OldHeadLosesAnEvent | shared_events.h:118-128 | a run without overlap where the second push loads the initial head, returns true and overwrites the first event |
| RingOverlaps.FifoExactlyWhenOrderly | shared_events.h:117-146 | for every initial queue, each run with fewer than 2^64 accepted pushes is FIFO with head counting the accepted ones, if and only if the capacity is 0, or nobody pushes, or pushes take turns (or one process pushes) and each loads the newest head |
| RingOverlaps.OverlappingPushesWedge | shared_events.h:118-128 | a run that ends with head behind tail and nothing in flight |
| RingOverlaps.WedgedForever | shared_events.h:121-139 | with latest-value loads every later push is refused as full and every later pop as empty, in every continuation from there |
| RingOverlaps.StaleLoadFreesTheRing | shared_events.h:118-141 | with stale loads a push that reads an old tail is accepted by the wedged ring, and a later pop succeeds |
| RingOverlaps.WedgedForeverExactlyWithLatestLoads | shared_events.h:118-141 | the ring wedged by overlapping pushes stays wedged in every continuation if and only if loads return the latest value |
| RingOverlaps.FewerThanTwo64Pops | shared_events.h:133-146 | the bound of the FIFO theorem is exact: under any discipline no run pops 2^64 events, so 2^64 accepted pushes are never all delivered |
| RingOverlaps.PushNumberTwo64IsStranded | shared_events.h:121-139 | and the bound can be reached: a run in which push number 2^64 wraps head below tail |
| RingOverlaps.NoPopAfterWrap | shared_events.h:137-139 | and no pop succeeds afterwards, whatever is called |
| Matching.ChoiceIsUnique | ws_client_delay/ws_client.cpp:371-403 | the declarative choice determines the event |
| Matching.ChoiceExists | ws_client_delay/ws_client.cpp:371-403 | and there always is one, possibly no event |
| Matching.MatchKernel | ws_client_delay/ws_client.cpp:367-386 | the two loops find the choice: first exact sequence number, else first nearest earlier event passing the socket filter |
| Matching.MatchNic | ws_client_delay/ws_client.cpp:389-403 | the same relative to the chosen kernel event, without the filter |
| Matching.ClientEventTakesLatestKernel | ws_client_delay/ws_client.cpp:376-386 | a user event without number and socket, as the client makes them, is matched exactly when a kernel event is not after it, and gets the latest such, of several the first |
| Matching.SocketEventTakesLatestOfItsSocket | ws_client_delay/ws_client.cpp:380-384 | one that names a socket gets the latest kernel event not after it that names the same socket or none |
| Matching.NumberedEventTakesItsNumber | ws_client_delay/ws_client.cpp:371-386 | one with a sequence number gets the first kernel event of that number, else what it would get without |
| Matching.KernelEventTakesLatestNic | ws_client_delay/ws_client.cpp:394-403 | a kernel event without number gets the latest NIC event not after it |
| Matching.NumberedKernelEventTakesItsNumber | ws_client_delay/ws_client.cpp:390-403 | one with a number gets the first NIC event of that number, else what it would get without |
| Matching.MatchedIffCandidate | ws_client_delay/ws_client.cpp:371-386 | a match is reported exactly when an exact or eligible event exists |
| Matching.WindowAgrees | ws_client_delay/ws_client.cpp:370-404 | dropping the oldest candidates keeps the answer unless it drops the answer, in both stages |
| Matching.WindowedMatchAgrees | ws_client_delay/ws_client.cpp:370-404 | the chained kernel and NIC match survives trimming of both windows |
| Matching.NearestIsMonotone | ws_client_delay/ws_client.cpp:371-403 | a later reference time never gets an earlier event, whichever stage finds it |
| Matching.TimelinesNeverCross | ws_client_delay/ws_client.cpp:370-404 | a later user event of equal sequence number and socket never gets an earlier kernel time, nor an earlier NIC time if the kernel events carry the same sequence number |
| Matching.NicTimesFollowExactly | ws_client_delay/ws_client.cpp:389-403 | over all lists of stamped NIC events two kernel events get NIC times in their order if and only if their sequence numbers agree, or the earlier has no number and time at most 1, or the later no number and the last clock value |
| Matching.AnyNicTimesFollowExactly | ws_client_delay/ws_client.cpp:389-403 | over all lists, unstamped events included, if and only if the numbers agree or the earlier kernel event has neither number nor time |
| Matching.NearestMatchIsOrdered | ws_client_delay/ws_client.cpp:376-402 | nearest-time matching yields NIC <= kernel <= user |
| Latency.SegmentsAreDifferences | ws_client_delay/ws_client.cpp:312-326 | each of the four segments is the difference of the two clock readings it lies between, 0 if those are out of order or there is no NIC event |
| Latency.ExchangeLatencies | ws_client_delay/ws_client.cpp:452-460 | the latencies from the exchange are epoch clock minus event time, and NIC time plus offset minus event time with wrap-around |
| Latency.TotalRunsFromExchangeToForwarding | ws_client_delay/ws_client.cpp:461-463 | for readings in order Total is the span from event time to epoch clock plus the span from callback to completed forwarding, with or without a NIC event |
| Latency.ReportNamesItsEvents | ws_client_delay/ws_client.cpp:407-417 | a report carries its user event's number, symbol and descriptor, and the first nonzero choice of sequence number and socket |
| Latency.TotalIsSumPlusDrift | ws_client_delay/ws_client.cpp:445-464 | Total equals the five segments plus clock drift modulo 2^64 exactly when NIC <= kernel <= user |
| Latency.NearestMatchesAddUp | ws_client_delay/ws_client.cpp:376-464 | so it always does for records matched by time |
| Correlator.EventCorrelator.AddEvent | ws_client_delay/ws_client.cpp:340-355 | an event joins the window of its kind and no other; unknown kinds are dropped |
| Correlator.EventCorrelator.TrimDeques | ws_client_delay/ws_client.cpp:501-505 | each window becomes its last events |
| Correlator.EventCorrelator.CorrelateUser | ws_client_delay/ws_client.cpp:363-491 | one user event adds its report if it has a kernel match, and its log line if the exchange latency is positive |
| Correlator.RecordHoldsDifferences | ws_client_delay/ws_client.cpp:478-489 | each column of a log record is the clock difference it is named after, in terms of the readings of the user, kernel and NIC event |
| Correlator.EventCorrelator.CorrelateAndLog | ws_client_delay/ws_client.cpp:357-498 | a pass trims, reports all matches in order, and its final cuts change nothing |
| Correlator.PassReportsMatched | ws_client_delay/ws_client.cpp:363-492 | a pass makes exactly one report per matched user event, in window order and under its number |
| Correlator.MatchedIncrease | ws_client_delay/ws_client.cpp:363-492 | for numbered user events those numbers strictly increase |
| Correlator.CorrelationThread | ws_client_delay/ws_client.cpp:809-826 | the thread's windows, reports and written lines are those of the run function, final pass included |
| Correlator.RunKeepsWindows | ws_client_delay/ws_client.cpp:340-360 | in every reachable state each window is a suffix of the events of its kind, at most 4295 long, through counter wraps |
| Correlator.WindowsStaySmall | ws_client_delay/ws_client.cpp:340-360 | each window holds at least the last 4096 events of its kind and never more than 4295 |
| Correlator.PassSeesLastEvents | ws_client_delay/ws_client.cpp:357-360 | every pass works on exactly the last 4096 events of each kind |
| Correlator.PassAgreesWithHistory | ws_client_delay/ws_client.cpp:357-404 | a pass gives the match of the full history whenever its events are among those |
| Correlator.NextPassWithin200 | ws_client_delay/ws_client.cpp:816-818 | the gap between passes never exceeds 200 events, wrap of the 32-bit counter included |
| Multiplicity.DuePassesReport | ws_client_delay/ws_client.cpp:357-492 | a user event is reported once for each due pass at which it is among the last 4096 user events and matched |
| Multiplicity.ReportedOncePerPass | ws_client_delay/ws_client.cpp:357-491 | so the log holds one line for each such pass, the final one included, if the exchange latency is positive |
| MessageHandler.Handler.OnMessage | ws_client_delay/ws_client.cpp:755-772 | the event of a callback: the next number, its four clock readings, event time in nanoseconds, descriptor, process and symbol, no kernel or NIC time, zero sequence number and socket, at most 511 payload bytes |
| MessageHandler.Handler.OnMessages | ws_client_delay/ws_client.cpp:757 | successive callbacks number their events 1, 2, 3, ... |
| AsyncLog.AsyncLogWriter.Write | ws_client_delay/ws_client.cpp:267-281 | a submitted line joins the queue |
| AsyncLog.AsyncLogWriter.Take | ws_client_delay/ws_client.cpp:226-235 | under the lock the writer takes the oldest line or finds none |
| AsyncLog.AsyncLogWriter.Emit | ws_client_delay/ws_client.cpp:237-243 | outside it the line is written, counted, and every 500th flushes |
| AsyncLog.AsyncLogWriter.Drain | ws_client_delay/ws_client.cpp:246-252 | the drain writes the whole queue in order and flushes everything |
| AsyncLog.WriterStepKeepsInv | ws_client_delay/ws_client.cpp:223-253 | each step of the writer keeps lines, lock ownership, flush count and shutdown progress consistent |
| AsyncLog.EveryLineIsWritten | ws_client_delay/ws_client.cpp:223-281 | file, hand and queue are always all submitted lines in order; at most 499 unflushed, counted modulo 500; at join every line submitted before destruction is in the file, flushed |
| AsyncLog.DrainTerminates | ws_client_delay/ws_client.cpp:247-252 | whatever other threads do, each writer step of the drain removes one line until it finishes |
| AsyncLog.StopLeadsToDrain | ws_client_delay/ws_client.cpp:223-247 | once stopped, the writer reaches the drain within seven of its own steps, whatever other threads do |
| LogReader.ParseLatencyLog | analyze_latency.py:14-52 | the loop collects, per key, the leftmost match of every line |
| LogReader.LineEndsAtBreak | analyze_latency.py:25-26 | a line runs to the first line feed or carriage return, or to the end |
| LogRoundTrip.SearchFindsLeftmost | analyze_latency.py:28-50 | a search returns the digits of the leftmost place where the pattern matches, and nothing exactly when it matches nowhere |
| LogRoundTrip.ParseIsPositional | analyze_latency.py:30 | a digit string is read as a decimal numeral, most significant digit first |
| LogRoundTrip.ParseDecimal | analyze_latency.py:30 | parsing inverts decimal printing |
| LogRoundTrip.SearchSplits | analyze_latency.py:28-48 | a search across a blank finds the first side's match, else the second's |
| LogRoundTrip.FieldAnswersItsKey | ws_client_delay/ws_client.cpp:483-488 | a printed field answers its own key with its value and no other key |
| LogRoundTrip.CollectLine | ws_client_delay/ws_client.cpp:479-488 | a line contributes its symbol's own matches and then its value |
| LogRoundTrip.RoundTrip | ws_client_delay/ws_client.cpp:479-488 | for any records with match-free symbols the script's lists on the whole log are the value lists, in order |
| LogRoundTrip.RoundTripByName | analyze_latency.py:28-50 | under the script's own names each list holds, record by record, the value printed under that name |
| LogRoundTrip.HeadIsReadable | ws_client_delay/ws_client.cpp:480-482 | the number and the TCP number printed at the head of a line can be read back, and the symbol comes next |
| LogRoundTrip.NoEqualsIsSilent | analyze_latency.py:28-50 | a symbol without an equals sign is match-free, even with line breaks |
| LogRoundTrip.SymbolTestIsExact | analyze_latency.py:26-50 | all records with a symbol are read back correctly if and only if the symbol is match-free |
| EndToEnd.QueueKeepsNumbers | ws_client_delay/ws_client.cpp:757-775 | numbering survives the queue; refused pushes only leave gaps |
| EndToEnd.EveryPassIncreases | ws_client_delay/ws_client.cpp:757-825 | from callback to pass: the user window strictly increases, and each pass reports its matches once in that order |
| EndToEnd.EveryPassKeepsTimelines | ws_client_delay/ws_client.cpp:640-825 | with a clock that does not go back, kernel times along a pass never go back, no match is followed by a miss, and NIC times keep the order of kernel events of equal number |
| EndToEnd.EveryCallbackIsLoggedPerPass | ws_client_delay/ws_client.cpp:757-826 | from callback through the ring to the log: the event of a callback is logged once per pass that finds it |
| EndToEnd.CallbackIsFoundExactlyWhen | ws_client_delay/ws_client.cpp:357-478 | a pass finds a callback exactly when its event is among the last 4096 user events and a kernel event among the last 4096 is not after it; logged if besides its event time is known and before the epoch clock |
| EndToEnd.ScriptReadsWhatWasSubmitted | analyze_latency.py:14-52 | for every interleaving of submitters and writer, the script's lists are the submitted records' values |
| EndToEnd.ScriptReadsTheReports | ws_client_delay/ws_client.cpp:478-489 | in particular those of the correlator's reports |
| EndToEnd.ReportedSymbolsAreReceived | ws_client_delay/ws_client.cpp:757-825 | every symbol the correlation thread reports is one that a message brought |
| EndToEnd.ScriptReadsTheRun | ws_client_delay/ws_client.cpp:757-826 | for every serialised interleaving of the ring and every interleaving of the writer, the script's lists are the values of the thread's records on the popped events |
| EndToEnd.RecordsAreExplained | ws_client_delay/ws_client.cpp:363-489 | each record of a run consists of clock differences of one message, the latest kernel event not after it and that event's NIC event, among the last 4096 at some pass |
| EndToEnd.ScriptReadsClockDifferences | ws_client_delay/ws_client.cpp:640-826 | so for every run each row of the script's six lists consists of such differences, under the right names |
| RecvProbes.Probes.Kprobe | ebpf_loader/bpf_program.c:58-70 | time, socket and upper half of the thread identifier are stored, unless the thread is new and 1024 entries are there |
| RecvProbes.Probes.Kretprobe | ebpf_loader/bpf_program.c:74-118 | an event is submitted exactly for a stored entry, positive count and successful reservation: of kernel kind, with the entry's time as kernel time and no other, its socket, process and byte count; the entry goes in every case |
| RecvProbes.StepKeepsInv | ebpf_loader/bpf_program.c:58-118 | each probe keeps the map bounded, its entries true, and submitted events among the owed ones, unless both probes of a call can be missed |
| RecvProbes.SubmittedEventsAreOwed | ebpf_loader/bpf_program.c:58-118 | in every run each submitted event tells time, socket, process and byte count of its own thread's call, in order, none twice, if and only if missed entries and missed returns are not both possible |
| RecvProbes.EntriesAreOfThreadsInside | ebpf_loader/bpf_program.c:58-118 | in every run the map has entries only for threads inside the call, if and only if no return probe is missed |
| RecvProbes.EveryReturnIsAnswered | ebpf_loader/bpf_program.c:58-118 | in every run every positive return yields exactly its event, if and only if no entry is missed, no return is missed, at most 1024 threads are inside and reservations succeed; each of the four is needed |
| LoaderCopy.HandleEvent | ebpf_loader/ebpf_loader.cpp:52-54 | the bytes are copied as they are |
| LoaderCopy.WhatTheCopyKeeps | ebpf_loader/ebpf_loader.cpp:27-54 | the layer timestamps survive the change of layout; descriptor, socket, sequence number, process, lengths and ports each become which other field |
| LoaderCopy.SocketComesFromPayload | ebpf_loader/ebpf_loader.cpp:27-54 | socket and sequence number are read from payload bytes, so unwritten payload makes both zero |
| LoaderCopy.LoaderLayout | ebpf_loader/ebpf_loader.cpp:27-42 | the offsets of the loader's record follow from field sizes and alignment |
| LoaderCopy.BpfFieldsAreInPlace | ebpf_loader/ebpf_loader.cpp:27-42 | and every numeric field of it is read there |
| LoaderCopy.UnifiedLayout | shared_events.h:26-51 | so do those of the shared record |
| LoaderCopy.UnifiedFieldsAreInPlace | shared_events.h:26-51 | and every field is read there |
| PacketParser.ParseTcpPacket | dpdk_capture/dpdk_capture.cpp:27-85 | reads only inside the packet, succeeds exactly on frames of the builder, recovers ports and sequence number |
| PacketParser.BuiltFrameCarries | dpdk_capture/dpdk_capture.cpp:38-82 | every built frame, any options, tag and payload, has its fields where the parser looks |
| PacketParser.TcpNumbersAreBigEndian | dpdk_capture/dpdk_capture.cpp:78-82 | ports and sequence number stand first in the TCP header, most significant byte first |
| PacketParser.FramesAreBuilt | dpdk_capture/dpdk_capture.cpp:33-74 | whatever passes the header tests is a frame the builder makes |
| PacketParser.FramesAreThoseThatLookLikeIt | dpdk_capture/dpdk_capture.cpp:33-82 | so the header tests decide whether a packet is a built frame, and the bytes read determine its fields |
| Subscribe.BuildSubscribeMessage | ws_client_delay/ws_client.cpp:164-175 | the loop produces the message function |
| Subscribe.MessageIsJson | ws_client_delay/ws_client.cpp:164-175 | the message is the JSON text of an object with method SUBSCRIBE, one stream per symbol in params, and id 1 |
| Subscribe.SubscriptionIsInvertible | ws_client_delay/ws_client.cpp:164-175 | a splitter recovers the symbol list, so distinct lists give distinct messages |

## Left out

- Weak memory beyond stale counter loads: slot words are read as last written.
- Several poppers: only the correlation thread pops.
- The warning printed when the log queue exceeds 10000 lines: it reads a clock and changes nothing.
- JSON parsing: the extracted symbol and event time are inputs.
- WebSocket, TLS, REST, ZeroMQ, DPDK and libbpf set-up, shared-memory mapping, signal handling.
- Percentile statistics of the analysis script.
- LogReader.ParseLatencyLog: digits are the ten ASCII ones, while the script's `\d` also accepts other decimal digits of Unicode, which exchange symbols do not contain; a carriage return and a line feed in a row count as two line ends here, which adds an empty line without matches.
- LoaderCopy.HandleEvent: the record is followed by at least 48 readable bytes, since the copy takes the size of the larger record.
- PacketParser.ParseTcpPacket: the packet is a value of at most 65535 bytes; the length is given in 16 bits by the caller.
- SharedQueues.Create: the outcome of opening and mapping the memory is a parameter.
- Matching.MatchKernel: a match comes back as the event and a flag; the value-initialised event of the source is a parameter.
- The accessors `is_complete`, `latency_nic_to_user` and `latency_bn_to_nic`: nothing calls them.
- The console line of the correlator, with its N/A entries: the report it is printed from is modelled.
