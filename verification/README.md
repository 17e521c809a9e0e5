# Verified model of the traffic shaping router

The router takes packets from the network, hands each through a chain of
filters that may rewrite, delay or drop it, and sends on what is left. This
project models the filters that keep state and proves what they do over whole
runs.

* **NAT** (`Packets`, `TimedTable`, `NatSpec`, `ConeNat`, `SymNat`,
  `SymNatPorts`, `PortForwarding`, `NatLag`, `LaggingNat`, `LaggingCone`,
  `Connections`, `NatMappers`, `NatFilters`, `Nat`). The four kinds of section 5 of RFC 3489. `NatSpec` says what one
  packet does to the tables; the classes keep tables of shared connection
  entries, rearm them through one table and see it in the other, and are proved
  to compute `NatSpec`. `ConeNat` and `SymNat` replace the tables by the history
  of packets sent out.
* **Token bucket** (`Frames`, `TokenBucketSpec`, `TokenBucket`). The 32-bit and
  64-bit arithmetic is written out, wrap-around included.
* **Asynchronous queue and delays** (`AsyncQueueSpec`, `AsyncQueue`,
  `DelayCurve`, `DelaySpec`, `Delays`). The queue is a machine of interleaved
  critical sections; the delay filters are built on queue objects.
* **Chain** (`Chain`, `ChainStages`, `PacketStages`). Any chain of Loss, DynamicLoss, Burst,
  delay, token bucket and NAT filters, with the inline hand-over from filter to
  filter.

## How to read it

A run of the NAT is a sequence of packets, each with the time it is handled.
Timers that have run out by then fire first, and firing takes an entry out of
all its tables at once. `NatLag`, `LaggingNat` and `LaggingCone` give that up: there
a timer runs out in one step and the entry is taken out in a later one.

Times are natural numbers and never fall along a run (`InOrder`, `Ordered`,
`ClockRuns`). Random draws, clock readings and the order of steps are inputs.
`next_` is the ghost sequence `forwarded`, or the sequence a function returns.

When every external port of a symmetric NAT is taken, the port search loops for
ever and keeps the lock of the mapper. `NatSpec` gives the packet the outcome
`Hang` and blocks the mapper for good: no timer takes an entry out of it any
more, and every packet that needs its tables hangs too. The filter has a lock
and timers of its own and goes on dropping what it does not know, and forwarded
ports need no table. `SymNat.HangsWhenFull` says exactly which packets hang; the
methods of the objects require that the search ends. That each hung packet also
keeps a thread of the pool is not modelled.

## What the code does not do

Where the code and its documentation differ, the model follows the code.

* `README.md:147` says the NAT never translates a port. Proved for the three
  cone kinds (`ConeNat.OutgoingKeepsPort`). A symmetric NAT keeps the port of a
  new flow exactly when no open flow has it (`SymNat.NewFlowTakesFirstFreePort`);
  `SymNatPorts.SecondFlowMoves` is a run of two packets where it does not.
* A full symmetric NAT hangs, for good (`SymNat.HangsWhenFull`); 65537 packets
  are enough (`SymNatPorts.CrowdHangs`).
* `README.md:139` lets a forwarded port lead to another internal port. Packets
  get in, but the answers come back exactly when two things hold: the packet was
  addressed to the NAT, and either the two ports are equal or a symmetric mapper
  happens to translate the port back (`PortForwarding.AnswerReturns`, with a rule
  that loses answers in `TranslatedPortLosesAnswer` and one that is lucky in
  `TranslatedPortReturnsByChance`).
* `README.md:147` allows one internal host. With several behind a cone NAT an
  answer goes to the host that opened the port, whoever it is for
  (`ConeNat.AnswerReachesSender`, with two hosts in
  `ConeNat.SecondHostLosesAnswers`).
* Flows have external ports of their own exactly on ports that are not forwarded
  (`SymNat.FlowsHaveTheirOwnPorts`); all flows from a forwarded port share it
  (`SymNat.ForwardedFlowsShareTheirPort`).
* The port search of a symmetric NAT does not avoid forwarded ports. The answer
  to a packet that went out reaches its sender exactly when the packet did not
  leave by a port forwarded to someone else (`SymNatPorts.AnswerReachesSender`,
  with a run in `SymNatPorts.AnswerGoesAstray`).
* Entries are taken out by key. If an entry is taken out after a new one for
  the same flow has been opened, the new one is lost. `NatLag` shows a run
  (`FlowSplits`, `PortIsLost`) and exactly which step does it.
* The filter looks a key up without asking whether its entry has run out. A packet
  reaches the flow of another exactly when the filter still has its key and the
  live flow on its port has another remote, which needs an entry past its deadline
  (`LaggingNat.MisledExactly`, with a run in `LaggingNat.StaleEntryMisleads`).
* The filter too erases by key. It loses a key in use exactly when an entry is
  taken out whose key has been opened again (`LaggingNat.StepKeepsKeysFindable`,
  with a run in `LaggingNat.KeyIsLost`).
* A mapper that has lost a port rejects answers that the filter lets in, and
  before the deadline of the filter entry exactly then
  (`LaggingCone.RejectedExactly`, with a run in `LaggingCone.AnswerIsRejected`).
* `README.md:158` describes random early drop. The quotient it compares with is
  an integer division that is always 0, so a packet is dropped early only on the
  draw of exactly 0 (`TokenBucketSpec.EarlyDropNeedsZero`). The same line asks
  for more tokens than bytes; the code sends on equality
  (`TokenBucketSpec.SendsOnEquality`).
* The credit of a run is rounded down and the rest is not kept. At 1 kbit/s, runs
  4 ms apart each earn nothing, so nothing is ever sent
  (`TokenBucketSpec.LowRateStarves`, `OneKilobitStarves`).
* The sum of tokens and credit is cut to 32 bits before it is capped, so a long
  gap between runs can earn nothing (`TokenBucketSpec.WrapHoldsHead`).
  `TokenBucketSpec.HeadLeaves` is exact in that arithmetic.
* `src/filters/dynamic_delay.hpp:35` says interpolated delays are rounded down.
  They are cut towards zero, which is the same exactly when the number is not
  negative or is whole (`DelayCurve.RoundsDownUnlessNegative`); between -1 and 0
  it is not (`DelayCurve.NegativeDelayRoundsUp`).

## Model

| member | source | states |
|---|---|---|
| Packets.TableKeys | src/filters/connection_tuple.hpp:36-99 | under the orders the tables sort by, two keys are the same entry exactly when all five fields agree, or all but the source port in an address restricted table |
| TimedTable.HoldsRecentKeys | src/filters/connection_entry.hpp:20-46 | at any later time a table of timed entries holds exactly the keys used within the last timeout, and each entry carries the tuples of the use that opened it and the deadline of its last use |
| TimedTable.RecentUseIsHeld | src/filters/connection_entry.hpp:20-46 | an entry never expires earlier than one timeout after any recent use of its key |
| ConeNat.RunIsHistory | src/filters/nat_mapper.cpp:59-129 | after every run the cone mapper and its filter are the tables the packets sent so far call for, and no entry translates a port |
| ConeNat.OutgoingKeepsPort | src/filters/nat_mapper.cpp:85-114 | after every run an outgoing packet leaves with the external address and is otherwise unchanged |
| ConeNat.IncomingRefinesHistory | src/filters/nat.cpp:39-52 | on a port that is not forwarded an incoming packet gets through exactly when the last timeout saw a packet out through that port (full cone), to that address and protocol (address restricted), to that address, port and protocol (port restricted), and then it goes to the host that opened the port, else it is dropped |
| ConeNat.SingleHost | README.md:147 | with one internal host every packet that gets through goes to it |
| ConeNat.AnswerReachesSender | src/filters/nat_mapper.cpp:93-113 | within the timeout the answer to a packet that went out reaches its sender exactly when the port is not forwarded and its opener has the address of the sender, or it is forwarded to the sender |
| ConeNat.SecondHostLosesAnswers | src/filters/nat_mapper.cpp:93-113 | a run in which the second of two hosts that send from one port does not get its answers |
| ConeNat.TupleFilterIsBacked | src/filters/nat_filters.cpp:37-63 | a live entry of the port restricted filter is backed by a live mapper entry that expires no earlier |
| ConeNat.AddrFilterIsBacked | src/filters/nat_filters.cpp:101-128 | the same for the address restricted filter |
| SymNat.FirstFreeIsFirst | src/filters/nat_mapper.cpp:207-214 | the port search returns the first free port in cyclic 16-bit order, or finds every probe taken |
| SymNat.SearchFailsWhenFull | src/filters/nat_mapper.cpp:207-214 | the search has no end exactly when 65536 ports are taken |
| SymNat.StepKeepsConsistent | src/filters/nat_mapper.cpp:148-233 | one event that does not hang keeps the two mapper tables inverse and the filter in step with them; one that hangs blocks the mapper |
| SymNat.RunIsConsistent | src/filters/nat.cpp:39-52 | after every run in which nothing hung the tables by tuple and by port are inverse, and on ports that are not forwarded the filter holds exactly the external tuples of the flows, with equal deadlines; after any other the mapper is blocked |
| SymNat.FilterHoldsSent | src/filters/nat_filters.cpp:37-63 | hung or not, the live keys of the filter are exactly the reverses of the translated packets sent within the last timeout |
| SymNat.RecentFlowIsOpen | src/filters/nat_mapper.cpp:173-203 | while nothing has hung, the flow of a packet sent within the last timeout is open under the external tuple the packet left with |
| SymNat.OpenFlowWasSent | src/filters/nat_mapper.cpp:173-203 | every open flow has a last packet, which set its deadline and left with its external tuple |
| SymNat.IncomingAnswersOutgoing | src/filters/nat.cpp:39-52 | on a port that is not forwarded an incoming packet becomes r exactly when nothing has hung and some packet sent within the last timeout is the reverse of r and left as the reverse of the incoming one; it hangs exactly when something has hung and some packet sent within the last timeout left as its reverse |
| SymNat.FlowsHaveTheirOwnPorts | src/filters/nat_mapper.cpp:207-227 | a packet sent recently that left by a port that is not forwarded shares that port with another one sent recently exactly when they belong to one flow |
| SymNat.ForwardedFlowsShareTheirPort | src/filters/nat_mapper.cpp:34-35 | two packets from one forwarded port, of whatever flows, both leave by it |
| SymNat.FlowKeepsItsPort | src/filters/nat_mapper.cpp:182-187 | while a packet of a flow is recent the next one leaves the same way, unless the NAT has hung and the port is not forwarded, when it hangs |
| SymNat.NewFlowTakesFirstFreePort | src/filters/nat_mapper.cpp:188-203 | a new flow leaves by the first external port from its source port on that no open flow has, and keeps its port exactly when that is free |
| SymNat.OneFlowPerPort | src/filters/nat_mapper.cpp:216-233 | there are as many flows as external ports in use |
| SymNat.HangsWhenFull | src/filters/nat_mapper.cpp:207-214 | an outgoing packet hangs exactly when its port is not forwarded and either some packet has hung before or it would open a new flow beside 65536 open ones |
| SymNatPorts.AnswerReachesSender | src/filters/nat_mapper.cpp:188-214 | within the timeout the answer to a packet that went out reaches its sender exactly when the packet left by a port that is not forwarded, or forwarded to the sender itself |
| SymNatPorts.SecondFlowMoves | src/filters/nat_mapper.cpp:207-214 | the second of two flows from one port leaves by the next port |
| SymNatPorts.AnswerGoesAstray | src/filters/nat_mapper.cpp:207-214 | a run whose second flow is moved to a forwarded port and does not get its answers |
| SymNatPorts.FlowsOpen | src/filters/nat_mapper.cpp:188-227 | up to 65536 packets of different flows sent at one time leave exactly their flows open, and none hangs |
| SymNatPorts.FullNatHangs | src/filters/nat_mapper.cpp:207-233 | after 65536 of them a packet of any other flow hangs, and at any later time every packet from a port that is not forwarded |
| SymNatPorts.CrowdHangs | src/filters/nat_mapper.cpp:207-214 | such a run, of hosts that all send from one port to one server |
| PortForwarding.AnswerReturns | src/filters/nat_mapper.cpp:34-35 | for every kind of NAT, the answer leaves as the reverse of the packet that came exactly when the packet was addressed to the NAT and the rule keeps the port, or the NAT is symmetric, the port of the rule is not forwarded, and the flow of the answer has the port the packet came to or is new and finds it first free |
| PortForwarding.TranslatedPortLosesAnswer | README.md:139 | with a rule from port 80 to port 8080 answers leave from port 8080 |
| PortForwarding.TranslatedPortReturnsByChance | src/filters/nat_mapper.cpp:207-214 | with a rule from port 80 to port 79 and another flow on port 79 a symmetric NAT sends the answer from port 80 |
| NatLag.PortsStayOwned | src/filters/nat_mapper.cpp:207-233 | however late entries are taken out, no two symmetric entries not yet taken out share an external port, and each is the one its port leads to |
| NatLag.FindableUnlessTupleReused | src/filters/nat_mapper.cpp:229-233 | a step keeps every live entry reachable by its tuple, except exactly one that takes out an entry whose tuple already leads to a live one |
| NatLag.FlowSplits | src/filters/nat_mapper.cpp:229-233 | five steps after which one flow has two live entries and two external ports |
| NatLag.ConeFindableUnlessPortReused | src/filters/nat_mapper.cpp:131-135 | in a cone mapper both tables lose a live entry exactly when an entry is taken out whose port already leads to a live one |
| NatLag.PortIsLost | src/filters/nat_mapper.cpp:131-135 | four steps after which a port just used leads nowhere |
| LaggingNat.RunIsBacked | src/filters/nat_filters.cpp:37-74 | however late mapper and filter take out entries, every filter entry before its deadline on a port that is not forwarded has its own flow in the mapper, for as long |
| LaggingNat.OwnFlowUntilDeadline | src/filters/nat_filters.cpp:22-25 | a packet let in by a filter entry before its deadline goes to the flow the entry was opened for, or hangs if the NAT has hung |
| LaggingNat.MisledExactly | src/filters/nat_filters.cpp:22-25 | a packet reaches the flow of another exactly when the filter has its key, nothing has hung and the live flow on its port has another remote; and then its filter entry is past its deadline |
| LaggingNat.StaleEntryMisleads | src/filters/nat_filters.cpp:22-25 | four steps after which a packet from the remote of a flow that is over goes to the flow that has its port |
| LaggingNat.KeysFindableUnlessReused | src/filters/nat_filters.cpp:69-74 | taking out an entry loses a live key of the filter exactly when its key already leads to a live entry |
| LaggingNat.StepKeepsKeysFindable | src/filters/nat_filters.cpp:37-74 | of all steps of the NAT exactly such a taking out loses a live key of the filter |
| LaggingNat.KeyIsLost | src/filters/nat_filters.cpp:69-74 | four steps after which the filter no longer has a key just used |
| LaggingCone.RunIsHeld | src/filters/nat_filters.cpp:37-74 | however late mapper and filter take out entries, every filter entry before its deadline on a port that is not forwarded has a mapping that lasts as long, and the table of the mapper leads to none that does not |
| LaggingCone.RejectedExactly | src/filters/nat_mapper.cpp:64-83 | before the deadline of its filter entry an answer is rejected exactly when the mapper has lost its port, although it has a live mapping for it; later exactly when the port leads to no live mapping; any other goes to the host of the mapping its port leads to |
| LaggingCone.AnswerIsRejected | src/filters/nat_mapper.cpp:131-135 | four steps after which an answer let in by an entry just armed is rejected |
| NatMappers.CheckDnat | src/filters/nat_mapper.cpp:20-44 | rewrites the packet as the forwarding rules say, or leaves it alone |
| NatMappers.NatMapper.MapPacket | src/filters/nat_mapper.cpp:59-116 | the in-place cone mapper with its two shared tables computes the mapping of `NatSpec`, tables and packet |
| NatMappers.NatMapper.FireTimers | src/filters/nat_mapper.cpp:131-135 | erasing by key every entry that has run out leaves exactly the live ones in both tables |
| NatMappers.SymNatMapper.MapPacket | src/filters/nat_mapper.cpp:148-205 | the in-place symmetric mapper computes the mapping of `NatSpec` and keeps its tables linked entry by entry |
| NatMappers.SymNatMapper.MapPort | src/filters/nat_mapper.cpp:207-214 | the probing loop ends at the first free port, past 65535 if need be |
| NatMappers.SymNatMapper.FireTimers | src/filters/nat_mapper.cpp:229-233 | erasing by tuple and by port leaves exactly the live entries in both tables |
| NatFilters.PortrSymNatFilter.FilterPacket | src/filters/nat_filters.cpp:15-67 | passes or arms by full tuple as `NatSpec` says |
| NatFilters.AddrrNatFilter.FilterPacket | src/filters/nat_filters.cpp:79-131 | passes or arms by the tuple without its source port as `NatSpec` says |
| Nat.Nat.Init | src/filters/nat.cpp:94-118 | builds the mapper and filter of the kind, with the configured rules, address and timeout, and empty tables |
| Nat.Nat.SetNatType | src/filters/nat.cpp:80-92 | the four names give the four kinds and any other name changes nothing |
| Nat.Nat.HandlePacket | src/filters/nat.cpp:32-54 | filters then maps incoming packets, maps then filters outgoing ones, and hands on exactly what `NatSpec` forwards |
| Nat.Nat.Step | src/filters/nat.cpp:32-54 | timers and packet together are one event of a run |
| TokenBucketSpec.Affordable | src/filters/tbf_filter.hpp:79-86 | the most packets at the front whose bytes the tokens cover |
| TokenBucketSpec.SendsOnEquality | src/filters/tbf_filter.hpp:81 | a packet exactly as long as the tokens is sent and leaves none |
| TokenBucketSpec.EarlyDropNeedsZero | src/filters/tbf_filter.hpp:40-51 | a packet is dropped early only on the draw of exactly 0 |
| TokenBucketSpec.RunInNumbers | src/filters/tbf_filter.hpp:16-30 | before it sends, a timer run leaves rate times the time since the last run, in 64 bits, over 8000, added to the tokens in 32 bits and capped, or the tokens of a full bucket; it sends from the front till the next packet costs more, and reads the clock again |
| TokenBucketSpec.DefaultBucketSends | src/filters/tbf_filter.hpp:9 | with the limits it is set up with, a bucket without tokens sends a waiting packet of 1500 bytes after 4100 microseconds and keeps 6500 tokens |
| TokenBucketSpec.StaysSettled | src/filters/tbf_filter.hpp:16-59 | after every run of events the head of the queue costs more than the tokens, and tokens and queue are within their limits |
| TokenBucketSpec.FirstInFirstOut | src/filters/tbf_filter.hpp:40-86 | packets sent followed by packets queued are the packets accepted, in order |
| TokenBucketSpec.RateBound | src/filters/tbf_filter.hpp:16-30 | over any stretch of any run the bytes sent and the tokens left are at most the tokens at its start plus rate times elapsed time, rounded down once |
| TokenBucketSpec.EarnedInPieces | src/filters/tbf_filter.hpp:23 | credits rounded down run by run never exceed the credit of the whole time |
| TokenBucketSpec.BurstBound | src/filters/tbf_filter.hpp:16-30 | over any stretch the bytes sent are at most the bucket size plus what the time earns, and only the latter from an empty bucket |
| TokenBucketSpec.HeadLeaves | src/filters/tbf_filter.hpp:16-30 | the packet at the front leaves first, and leaves exactly when after some event the tokens and the credit so far, cut to 32 bits, cover it, whatever arrives behind it |
| TokenBucketSpec.WrapHoldsHead | src/filters/tbf_filter.hpp:23 | a run that earns 2^32 tokens after which the packet at the front is still there |
| TokenBucketSpec.HeadLeavesOnCredit | src/filters/tbf_filter.hpp:79-86 | it never leaves before the runs together bring the tokens it lacks, and when no sum wraps it leaves exactly then |
| TokenBucketSpec.HeadLeavesInTime | src/filters/tbf_filter.hpp:16-30 | when each timer run adds a token while a packet waits, the packet at the front leaves within as many runs as it lacks tokens |
| TokenBucketSpec.LowRateStarves | src/filters/tbf_filter.hpp:23 | when rate times the time between runs stays below 8000 every run rounds down to nothing and no packet ever leaves |
| TokenBucketSpec.OneKilobitStarves | src/filters/tbf_filter.hpp:9 | at 1 kbit/s any number of runs 4 ms apart send nothing |
| TokenBucketSpec.QueueDrains | src/filters/tbf_filter.hpp:79-86 | when nothing arrives and each timer run adds a token while a packet waits, the whole queue has left, in order, within as many runs as it lacks tokens |
| TokenBucketSpec.DrainsWhenCovered | src/filters/tbf_filter.hpp:79-86 | without arrivals the queue is empty exactly when at some moment the tokens and the credit, less what was lost to the cut or to a full bucket, covered it |
| TokenBucketSpec.Ledger | src/filters/tbf_filter.hpp:16-30 | over any run, tokens left, bytes sent and tokens lost to the cut at 32 bits or to a full bucket are the tokens at the start and the credit |
| TokenBucketSpec.RoundingLosesLittle | src/filters/tbf_filter.hpp:23 | over any run the credit is the sum of the 64-bit products over 8000, less at most one token for each timer run |
| TokenBucketSpec.WorkIsRateTimesTime | src/filters/tbf_filter.hpp:23 | those products never come to more than rate times measured time, and to just that exactly when none wraps |
| TokenBucketSpec.BacklogGetsRate | src/filters/tbf_filter.hpp:16-30 | while packets wait and credits fit, the bytes sent are at least the 64-bit products over 8000, which is what the measured time earns when none wraps, less one for each timer run and the tokens left |
| TokenBucket.TokenBucket.Run | src/filters/tbf_filter.hpp:16-30 | the timer run in place computes the step the theorems are about; on the fields, tokens left and bytes sent come to the capped 32-bit sum of the tokens and rate times elapsed time over 8000, and packets keep their order |
| TokenBucket.TokenBucket.HandlePacket | src/filters/tbf_filter.hpp:40-59 | an arrival computes the step too; on the fields, the packet is queued exactly when the queue is not full and is short of the early drop or the draw is above 0 |
| TokenBucket.TokenBucket.TrySend | src/filters/tbf_filter.hpp:79-86 | the draining loop sends exactly the affordable packets |
| TokenBucket.TokenBucketFilter.HandlePacket | src/filters/tbf_filter.hpp:113-119 | a packet concerns the bucket of its direction, with its limits, leaves the other untouched, and is an offer to the stage of a chain |
| TokenBucket.TokenBucketFilter.Run | src/filters/tbf_filter.hpp:16-37 | so does the timer of a bucket, as the timer of the stage |
| AsyncQueueSpec.NoLostWakeup | src/async_queue.hpp:116-139 | under any interleaving of critical sections, items with a waiting callback imply a caller whose tryPop is still to run, and so does an empty stopping queue with a waiting callback |
| AsyncQueueSpec.RunIsSound | src/async_queue.hpp:189-216 | at every moment each accepted item is delivered, on its way, queued or discarded by a close, in push order |
| AsyncQueueSpec.DeliversInOrder | src/async_queue.hpp:189-216 | a consumer that asks again only after its handler ran has been given a prefix of the items accepted, though posting is outside the lock |
| AsyncQueueSpec.InternalRunsEnd | src/async_queue.hpp:189-216 | with no new calls the number of further steps is bounded by the work left |
| AsyncQueueSpec.ClosingRunsEnd | src/async_queue.hpp:147-155 | after a nice close the further steps of queue and consumer are bounded by the work left and two for each repeated nice close, however many pushes are refused |
| AsyncQueueSpec.NiceCloseDelivers | src/async_queue.hpp:147-155 | once niceClose has been called and the steps have run out, the consumer has every accepted item and then was told that the queue stopped, whatever is called meanwhile but close |
| AsyncQueueSpec.AcceptedAreOffered | src/async_queue.hpp:116-126 | a run accepts exactly the items offered before the first close of either kind, in order |
| AsyncQueueSpec.ClosesAreSteps | src/async_queue.hpp:147-165 | the queue is closing, or closed, exactly after a call of niceClose, or of close |
| AsyncQueueSpec.NicelyClosedRun | src/async_queue.hpp:147-155 | for every run from the start with a niceClose and no close: when its steps have run out, the consumer has been given exactly the items offered before the first niceClose and then was told that the queue stopped |
| AsyncQueue.AsyncQueue.TryPop | src/async_queue.hpp:189-216 | takes an item for a waiting callback, else answers it if the queue is stopping and empty |
| AsyncQueue.AsyncQueue.Push | src/async_queue.hpp:116-126 | queues and serves an item unless the queue is closing |
| AsyncQueue.AsyncQueue.AsyncPop | src/async_queue.hpp:128-139 | answers at once if stopped, else registers and serves |
| AsyncQueue.AsyncQueue.NiceClose | src/async_queue.hpp:147-155 | marks the queue as closing, and answers a waiting callback of an empty queue |
| AsyncQueue.AsyncQueue.Close | src/async_queue.hpp:158-185 | marks the queue as stopped, drops the items and answers a waiting callback, once |
| DelayCurve.ExtrapolatesExactly | src/filters/dynamic_delay.cpp:19 | the expression of the loop is the weighted mean of the two fix points cut towards zero |
| DelayCurve.CurveIndex | src/filters/dynamic_delay.cpp:12-28 | the curve has resolution values per fix point, and value a after fix point i lies a parts of the way to the next, the last going back to the first |
| DelayCurve.CurveLength | src/filters/dynamic_delay.cpp:12-28 | the curve has no other values, and none at all when the resolution is 0 |
| DelayCurve.FixPoints | src/filters/dynamic_delay.hpp:33-35 | the curve passes through its fix points |
| DelayCurve.SegmentIsMonotone | src/filters/dynamic_delay.hpp:34 | between two fix points the curve goes one way |
| DelayCurve.ValueBetweenFixPoints | src/filters/dynamic_delay.hpp:34 | every value lies between its two fix points |
| DelayCurve.RoundsDownUnlessNegative | src/filters/dynamic_delay.hpp:35 | a value is the interpolated number rounded down exactly when that number is not negative or is whole |
| DelayCurve.NegativeDelayRoundsUp | src/filters/dynamic_delay.hpp:35 | half way from -1 to 0 the value is 0 and not -1 |
| Delays.Interpolate | src/filters/dynamic_delay.cpp:12-23 | the nested loops compute the curve, for any resolution |
| DelaySpec.RunIsLawful | src/filters/dynamic_delay.cpp:30-79 | every run keeps packets in order and timed with the delay in force, and the ring a rotation of the curve |
| DelaySpec.NeverReorders | src/filters/shaper.cpp:23-43 | packets released, timed and queued are the arrivals in order, and release times never fall however the delay changes |
| DelaySpec.NeverEarly | src/filters/dynamic_delay.cpp:56-79 | a packet is due at the later of the time it was taken and its stamp plus the delay then in force, and leaves no earlier |
| DelaySpec.ReleaseFollowsSteps | src/filters/dynamic_delay.cpp:39-79 | the packet of release i is the i-th that came, with the stamp it came with; it was taken at the i-th pop, is due then or at its stamp plus the delay in force, and left at the i-th firing of the timer, not before it was due |
| DelaySpec.DelayCountsFromStamp | src/filters/shaper.cpp:23-35 | a packet stamped 0 that comes and is taken after 5 ms is due after 10 ms when the delay is 10 ms |
| DelaySpec.DelayFollowsCurve | src/filters/dynamic_delay.cpp:43-55 | after k changes the delay is value k - 1 of the curve taken round and round, no faster than one change in 1,000,000 microseconds |
| DelaySpec.DelayKeepsSchedule | src/filters/dynamic_delay.cpp:43-55 | when the delay changes as soon as it is due, the delay s seconds after the start is value s of the curve taken round and round |
| DelaySpec.StaticDelayIsExact | src/filters/shaper.cpp:30-43 | in ideal time, with stamps in order, every packet leaves at exactly stamp plus delay if and only if every packet came by then |
| Delays.StaticDelay.PopHandler | src/filters/shaper.cpp:23-43 | a posted handler on the queue object is one Pop of `DelaySpec` |
| Delays.StaticDelay.TimerFires | src/filters/shaper.cpp:36-41 | the timer releases the packet with a new stamp and asks for the next |
| Delays.DynamicDelay.SetDelays | src/filters/dynamic_delay.cpp:12-28 | appends the curve to the delays to come and returns it |
| Delays.DynamicDelay.DelayPopHandler | src/filters/dynamic_delay.cpp:43-55 | pushing the value back and taking it as the delay is one Tick of `DelaySpec`, and sets a timer of one second |
| Delays.DynamicDelay.DelayTimerFires | src/filters/dynamic_delay.cpp:51-53 | when that timer has run out the next delay is asked for |
| Delays.DynamicDelay.PopHandler | src/filters/dynamic_delay.cpp:56-79 | a posted handler is one Pop with the delay in force |
| Chain.OfferKeeps | src/filters/burst_filter.hpp:36-44 | what a filter hands on, followed by what it holds, is what it held followed by the packet, unless it drops the packet |
| Chain.WakeKeeps | src/filters/burst_filter.hpp:15-35 | a timer of a filter hands on the oldest of what it held and drops nothing |
| Chain.FeedKeeps | src/router.cpp:35-72 | what comes out of a chain, followed by what it holds, is what it held followed by what went in, less exactly what was dropped |
| Chain.RunConserves | src/router.cpp:78-200 | for every chain of the six filters and every run, in each direction, output then contents are the input in order, and each packet is in exactly one of output, chain and dropped or hung |
| Chain.ChainKeepsOrder | src/router.cpp:78-200 | from an empty chain the output of each direction is a subsequence of its input |
| ChainStages.FeedByStages | src/router.cpp:35-72 | handing packets on one by one as deep as they get is the same as passing all of them through the first filter and what it hands on through the others |
| ChainStages.DropsExactlyTheRefused | src/router.cpp:35-72 | a chain drops exactly the packets that reach a filter whose loss rate is above the draw, whose bucket is full or drops early on a draw of 0, or whose NAT does not forward them |
| ChainStages.KeepersDropNothing | src/filters/burst_filter.hpp:36-44 | a chain of burst and delay filters drops nothing of what it is fed |
| ChainStages.KeepersLoseNothing | src/router.cpp:78-200 | nor does it over any run |
| ChainStages.SleepersPassAll | src/filters/burst_filter.hpp:36-38 | a chain of sleeping burst filters hands on exactly what it is given |
| ChainStages.LossyPassSurvivors | src/filters/shaper.cpp:48-55 | a chain of loss filters hands on exactly the packets whose draw at every filter is at least its rate and drops exactly the others, in order |
| ChainStages.FeedThrough | src/router.cpp:35-72 | a chain followed by another is what the first hands on, fed to the second |
| ChainStages.StepThrough | src/router.cpp:78-200 | the same for a packet that enters and for every timer, which concerns its own filter and those behind it |
| ChainStages.OneFilter | src/router.cpp:78-200 | in a chain of one filter a packet is offered to it, its timer wakes it, and all it hands on comes out |
| ChainStages.RunKeepsOrder | src/router.cpp:78-200 | from an empty chain the output of each direction is a subsequence of the packets that entered; with burst and delay filters only, output then contents are all of them, in order |
| ChainStages.NatIsRun | src/filters/nat.cpp:32-54 | a NAT in a chain is in the state of a `NatSpec` run of the packets that reached it, and hands on exactly those the run forwards |
| ChainStages.NatRunsOn | src/filters/nat.cpp:32-54 | so it is after any number of packets |
| PacketStages.Burst.Init | src/filters/burst_filter.hpp:15-35 | the end of a collecting phase hands on the buffer in order, empties it and starts sleeping; the end of a sleeping phase hands on nothing and starts collecting; as a stage of the chain |
| PacketStages.Burst.HandlePacket | src/filters/burst_filter.hpp:36-44 | a packet leaves at once while the filter sleeps and is added to the buffer while it collects, as a stage of the chain |
| PacketStages.BurstIsPhased | src/filters/burst_filter.hpp:15-44 | over any run the filter sleeps in every other phase, holding nothing, and otherwise holds exactly the packets of the phase in order |
| PacketStages.CollectedLeaveTogether | src/filters/burst_filter.hpp:15-44 | over any run the packets of a collecting phase leave together, in order, when it ends and not before, and those of a sleeping phase as they come |
| PacketStages.Loss.HandlePacket | src/filters/shaper.cpp:48-55 | drops exactly when the draw is below the loss rate |
| PacketStages.DynamicLoss.HandleTimeout | src/filters/dynamic_loss.cpp:32-37 | takes the next loss rate, the first after the last, as a stage of the chain |
| PacketStages.RatesGoRound | src/filters/dynamic_loss.cpp:32-37 | after k changes rate k of the list is in force, taken round and round |
| PacketStages.DynamicLoss.HandlePacket | src/filters/dynamic_loss.cpp:46-53 | drops exactly when the draw is below the rate in force |
| PacketStages.DelayIsStage | src/filters/shaper.cpp:23-43 | a delay line of `DelaySpec` is a stage of the chain that holds the packet whose timer runs and then those that wait |

## Left out

- TokenBucketSpec.QueueDrains: supposes that while a packet waits each timer run adds a token; `LowRateStarves` is about runs that add none, and `DrainsWhenCovered` about any runs.
- TokenBucketSpec.HeadLeavesInTime: the same; `HeadLeaves` is about any runs.
- TokenBucketSpec.BacklogGetsRate: supposes a backlog and credits that fit the bucket; `Ledger` is about any run.
- DelaySpec.StaticDelayIsExact: about ideal time, in which handlers and timers run when due; NeverReorders, NeverEarly and DelayFollowsCurve are about any timing.
- DelaySpec.DelayKeepsSchedule: about ideal time too.
- DelayCurve.ExtrapolatesExactly: the loop computes in float; the model is exact, and float rounding could move a value by one.
- Delays.Interpolate: the same; the loops are the source's, the arithmetic is exact.
- Delays.DynamicDelay.SetDelays: the same, for the curve it appends.
- AsyncQueue.AsyncQueue.Close: closes in one step; the source reads the callback and clears the queue outside the lock, and nothing calls it.
- Chain.RunConserves: a packet that hangs in a NAT is counted with the dropped ones, and the packets handed on behind it go on; in the source the thread that hands them on stays in its loop and keeps the lock of the Burst or token bucket in front.
- The tuples packets of a chain carry are inputs at each filter: what a NAT writes is not read by the next.
- NatSpec takes a packet as one atomic step; the thread pool and the memory model of the tables between their locks are not modelled.
- The NAT timeout is a natural number; its conversion from unsigned to signed in the entry is not modelled.
- Forwarding rules are fixed from Init on; removeDnatRule would only add easy members.
- The rewriting of bytes on the wire and of ICMP identifiers: a packet is its five-tuple.
- Burst phase durations, and startSleeping and stopSleeping, which nothing calls; the times between loss rates.
- Input, InputDrop and Output: pass-throughs that would only add easy members.
- Verdicts given to the packet filter of the kernel: not every drop gives one.
- The packet queue of the kernel, raw sockets, option parsing and the router's dispatch of packets to its chain.
