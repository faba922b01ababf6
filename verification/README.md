# Pirewall, modelled and proved in Dafny

Pirewall watches a home network from a small router: it aggregates packets into flows, meters devices
in the kernel, keeps sliding windows of behaviour, scores evidence and decides what to do with a source.
This project models the stateful parts of that work and proves what they are for. Objects that the
program changes in place are classes; parsers and scoring are functions over values. Each class is
proved to behave as a small pure machine, and the theorems are about every run of that machine.

| file | part of the program | main results |
|---|---|---|
| `LruTable.dfy`, `OrderedDict.dfy` | slab, free list, linked list and index of the flow table | the heap-shaped table is an ordered dictionary |
| `FlowState.dfy` | Welford statistics, flow keys, per-flow accumulators | a flow's state is the recount of its packets |
| `FlowLedger.dfy`, `Aggregator.dfy`, `FlowEngine.dfy`, `EngineLaw.dfy` | the engine that feeds, sheds, sweeps, flushes, recovers | flows and packets are conserved over every run; a flow ends exactly when its packets say so; what is announced, offered and evicted |
| `FrameParser.dfy`, `FrameLayout.dfy` | the Rust and the Python frame parser | they are one function, on every byte string; they read back every frame laid out octet by octet, and accept no other |
| `ClientHello.dfy` | JA3, heartbeat check, native prefilter | JA3 of a serialised hello, GREASE does not show, the prefilter loses nothing |
| `Fields.dfy`, `Pcap.dfy`, `RingBlock.dfy` | pcap writer and reader, the kernel ring block walker | round trips, cut files, no slice leaves the block |
| `TokenBucket.dfy`, `MeterSet.dfy`, `MeterLaw.dfy` | one token bucket; a bounded, expiring set of them | exact refusal law; rate bound across element lives; the outcome of every packet from those before it |
| `MeterSim.dfy`, `MeterSimulator.dfy`, `MeterTrace.dfy` | the kernel-meter simulator | counters balance over every run; observe mode changes nothing; the rate bound holds of the packets it lets pass |
| `MeterVerdicts.dfy`, `ChainOrder.dfy`, `OffenderLaw.dfy`, `ConntrackLaw.dfy`, `PortalLaw.dfy`, `StaticLaw.dfy` | the same, rule by rule | whom each rule is put to and in what order, what it decides, who is recorded and for how long, what conntrack knows, which portal connections are counted, what is dropped and why |
| `Throttle.dfy` | login throttle | locked exactly when the window is full; the wait is the least one |
| `Behavior.dfy`, `BehaviorHistory.dfy`, `SourceBehavior.dfy` | per-source behaviour indexes and flood queues | indexes are recounts, and count the whole history while no cap is reached; the capped queue loses nothing |
| `D1.dfy`, `D1Law.dfy` | sliding-window detectors | pruning and duplicate signals change no measure; each measure from the connection starts |
| `KernelPoller.dfy` | kernel offender poller | polls in a row, telescoping counters |
| `Decision.dfy` | scoring, level, decision, maturity gate | the action from the scores; ML evidence cannot change an enforcement |
| `Prelude.dfy`, `NftNames.dfy`, `PythonBytes.dfy` | names and byte-string operations that several parts share | |

Times are integers (microseconds) or reals (seconds, where the program divides them), rates, tokens,
scores and statistics are reals: rounding is not modelled. Integers that the program keeps in machine
words are unbounded unless a row says otherwise; the ranges of the byte formats are modelled exactly.

The engine, the simulator, the behaviour state, the throttle, the detector queues and the poller carry a ghost
history of what happened to them, and in every valid state they are where that history leads; so the theorems
about runs are also contracts of their reading methods.

In three places the code does not do all that is said of it. The model follows the code; a lemma gives an input,
and another says exactly when the promise holds:

- A pcap written with a snaplen above 262144 cannot always be read back, because the reader refuses longer
  records (`Pcap.SnaplenBound`, `Pcap.FileRoundTrip`).
- The Python payload extractor still answers when the captured bytes end before the IPv4 total length, where
  both parsers refuse (`ParserParity.ExtractAnswersAlone`, `ParserParity.ExtractBeyondParser`).
- The portal's "open connections, this one included" misses two kinds of tracked connection: one whose key still had
  a stale conntrack entry (`PortalLaw.PortalMisses`), and one whose repeated SYN was refused
  (`PortalLaw.RefusalMisses`), where the source says that a refused connection is dropped before it is tracked.
  `PortalLaw.PortalCounted` and `PortalLaw.EventLaw` say what one frame counts, `PortalLaw.PortalExact` which
  connections are counted after every run.

## Model

| member | source | states |
|---|---|---|
| `LruTables.LruTable.Unlink` | native/src/flow.rs:319-334 | taking a slot out of the linked list leaves the rest linked both ways, in the same order, with head and tail right |
| `LruTables.LruTable.LinkTail` | native/src/flow.rs:336-350 | a slot appended at the tail becomes the most recently used, every other link unchanged |
| `LruTables.LruTable.GetMut` | native/src/flow.rs:352-360 | a hit acts as move-to-end and returns the slot now at the tail, a miss changes nothing; found exactly when the dictionary has the key |
| `LruTables.LruTable.Insert` | native/src/flow.rs:362-383 | append after evicting the oldest entry when full, reusing a free slot; the evicted value is the oldest one's |
| `LruTables.LruTable.Pop` | native/src/flow.rs:385-392 | delete and return the value; absent keys change nothing |
| `LruTables.LruTable.Slots` | native/src/flow.rs:394-402 | following the next links lists every live entry once, oldest use first |
| `LruTables.LruTable.Clear` | native/src/flow.rs:404-411 | the empty dictionary, whatever the fields held, half-updated links included |
| `LruTables.UnlinkKeepsLinked` | native/src/flow.rs:319-334 | the list invariant survives the two neighbour updates and the head and tail updates |
| `LruTables.LinkTailKeepsLinked` | native/src/flow.rs:336-350 | the list invariant survives linking at the tail |
| `OrderedDict.PopFiltered` | native/src/flow.rs:654-664 | popping the keys of the entries that pass a test returns exactly those in order and leaves the others in order |
| `Welford.MeanIsExact` | native/src/flow.rs:28-56 | over exact reals the running mean times the count is the sum of the samples |
| `Welford.DeviationIsExact` | native/src/flow.rs:28-56 | m2 is the sum of squared deviations from the true mean |
| `Welford.ExtremesAreExact` | native/src/flow.rs:28-80 | minimum and maximum are samples and bound all of them, and are absent exactly when there is none |
| `Flows.KeyIdentifiesConversation` | native/src/flow.rs:83-104 | two packets have one key if and only if protocol and endpoints agree up to reversal |
| `Flows.ReplayIsRecount` | native/src/flow.rs:146-236 | every accumulator of a flow (counts, bytes, flags, closure, statistics, gaps, identity) equals its recomputation from the packet list |
| `Flows.BackwardIsReversed` | native/src/flow.rs:190-236 | a packet of the flow counted backward has exactly the opener's endpoints reversed, one counted forward exactly the opener's |
| `Flows.DirectionsPartition` | native/src/flow.rs:190-236 | forward and backward packets, bytes and payload bytes add up to the totals |
| `Flows.ClosesExactly` | native/src/flow.rs:238-249 | a flow closes if and only if it is TCP with a RST or a FIN from each side, its first packet is active_s old, or all its packets are inactive_s old, for every clock and any timeouts up to 2^63 microseconds |
| `FlowLedger.HitBalanced` | native/src/flow.rs:579-631 | one more packet of an open flow keeps the ledger of packets, flows and places balanced |
| `FlowLedger.OpenBalanced` | native/src/flow.rs:579-631 | opening a flow, with or without evicting the oldest, keeps it balanced |
| `FlowLedger.CompleteBalanced` | native/src/flow.rs:540-546 | completing a flow, pending or shed, keeps it balanced |
| `FlowLedger.SweepBalanced` | native/src/flow.rs:654-664 | sweeping keeps it balanced: exactly the timed-out flows leave |
| `FlowLedger.FlowsConserved` | native/src/flow.rs:508-515 | in a balanced ledger opened = open + pending + handed out + shed + lost |
| `FlowLedger.PacketsConserved` | native/src/flow.rs:579-631 | and all places together hold every accepted packet exactly once |
| `FlowLedger.CountersAreTotals` | native/src/flow.rs:190-236 | the packet counters of flows in one place add up to the packets the ledger puts there |
| `Aggregator.RunSound` | native/src/flow.rs:579-741 | after every run of feed, drain, sweep, flush, recover and limit changes the ledger is balanced and holds exactly the admitted packets and the flows opened |
| `Aggregator.RunConservesFlows` | native/src/flow.rs:508-546 | the frames whose admitted packet found no entry = open + pending + handed out + shed + lost, all from the machine's own states |
| `Aggregator.RunConservesPackets` | native/src/flow.rs:559-631 | with nothing shed or lost, the flows' packet counters sum to the frames that parsed as IPv4 with both ends routable |
| `Aggregator.RunStatesAreRecounts` | native/src/flow.rs:579-631 | every state held or handed out is the recount of one conversation's packets |
| `Aggregator.SweepExact` | native/src/flow.rs:654-664 | after every run a sweep takes out exactly the flows whose packets say they are due, and leaves exactly the others |
| `Aggregator.FeedExact` | native/src/flow.rs:596-631 | after every run an admitted packet's flow stays in the table if and only if the flow's packets, this one included, do not say it is due |
| `EngineLaw.RoutableExactly` | native/src/flow.rs:556-577 | routable are the addresses but 0.0.0.0, 127/8, 169.254/16, everything from 224.0.0.0 on, and the protected network's broadcast |
| `EngineLaw.AdmittedExactly` | native/src/flow.rs:580-598 | a laid-out IPv4 frame contributes its packet if and only if both its addresses are such |
| `EngineLaw.RunCountsFrames` | native/src/flow.rs:580-591 | packets_seen counts every frame fed, packets_malformed those that do not parse |
| `EngineLaw.AnnouncementsExact` | native/src/flow.rs:603-619 | the flows opened by an initiator = announced + pending + shed, and while none is shed the announcements are those packets in order, field by field |
| `EngineLaw.AggregateSignals` | native/src/flow.rs:603-619 | one is shed exactly when the pending announcements are at their limit |
| `EngineLaw.FlagsOfFrame` | native/src/flow.rs:190-236 | the flags counted are those of the frame; a TCP flow is initiated by SYN without ACK and RST, any other always |
| `EngineLaw.OfferOfFrame` | native/src/flow.rs:592-651 | a frame to or from the TLS port offers its payload if and only if it is a heartbeat record or starts a ClientHello, with its endpoints and time |
| `EngineLaw.NoOfferLost` | native/src/flow.rs:633-651 | over every run what was drained and what is pending are all the payloads offered, in order |
| `EngineLaw.EvictsLeastRecent` | native/src/flow.rs:362-383 | over every run the flow that gives way to a new one is the one whose last packet came first |
| `FlowEngine.Engine.constructor` | native/src/flow.rs:480-506 | the engine starts as the empty machine with no pending limits |
| `FlowEngine.Engine.SetPendingLimits` | native/src/flow.rs:535-538 | refines the machine's limit change |
| `FlowEngine.Engine.PushCompleted` | native/src/flow.rs:540-546 | a completed flow is pending or, at the limit, shed and counted |
| `FlowEngine.Engine.Feed` | native/src/flow.rs:579-631 | one frame over the linked slab does what the machine does over the dictionary, and its flow is in the table afterwards if and only if the flow's packets do not say it is due |
| `FlowEngine.Engine.OfferTls` | native/src/flow.rs:638-651 | a TLS candidate is queued exactly when the prefilter takes its payload |
| `FlowEngine.Engine.Drain` | native/src/lib.rs:280-308 | hands over everything pending and leaves nothing |
| `FlowEngine.Engine.Sweep` | native/src/flow.rs:654-664 | the flows whose packets say they are due, and no others, leave the table, oldest use first; the others keep their order |
| `FlowEngine.Engine.Flush` | native/src/flow.rs:737-741 | every open flow is returned, oldest use first, and the table is empty; with nothing shed or lost, the flows pending and handed out then count every admitted frame |
| `FlowEngine.Engine.Recover` | native/src/flow.rs:508-515 | from any field values the table is sound and empty again, the indexed flows are counted as lost, and everything else is kept |
| `FlowEngine.Engine.OpenFlows` | native/src/flow.rs:548-550 | with the engine's other fields and what it handed out, the table's length accounts for every flow its operations opened |
| `ParserParity.Parity` | native/src/parse.rs:112-242 | on every byte string the Python parser's result is the translation of the Rust parser's: same acceptance, same error class, same fields |
| `ParserParity.Ipv4Parity` | pirewall/capture/parser.py:111-157 | the same for the IPv4 part, field by field |
| `ParserParity.Ipv6Parity` | pirewall/capture/parser.py:159-195 | the same for the IPv6 part |
| `ParserParity.L4Parity` | pirewall/capture/parser.py:197-242 | the same for TCP, UDP and ICMP headers and their lengths |
| `ParserParity.PayloadParity` | pirewall/capture/parser.py:271-300 | on every accepted IPv4/TCP frame both extractors return the same slice of payload_length bytes |
| `ParserParity.ExtractBeyondParser` | pirewall/capture/parser.py:271-300 | when the Python extractor answers, the parser accepts the frame if and only if the capture reaches the IPv4 total length |
| `ParserParity.ExtractAnswersAlone` | pirewall/capture/parser.py:271-300 | on one literal frame, cut before its total length, the extractor answers and no parser accepts |
| `FrameLayout.FlagsRoundTrip` | pirewall/capture/parser.py:220-228 | each of the six TCP flags is read from its own bit, whatever the other bits are |
| `FrameLayout.NativeRoundTrip` | native/src/parse.rs:123-163 | an IPv4 frame laid out octet by octet (any MACs, addresses, header lengths, options, ports, flags, payload, trailer; TCP, UDP, ICMP or another protocol) parses as exactly those fields and lengths |
| `FrameLayout.PythonRoundTrip` | pirewall/capture/parser.py:95-157 | and so it does in Python, with the MACs as text |
| `FrameLayout.Native6RoundTrip` | native/src/parse.rs:165-196 | the same for IPv6, whose declared length counts as far as the capture holds it |
| `FrameLayout.Python6RoundTrip` | pirewall/capture/parser.py:159-195 | and in Python, with the IPv6 addresses |
| `FrameLayout.SegmentReads` | native/src/parse.rs:198-242 | a laid-out TCP, UDP or ICMP header reads as its ports, flags and length at any offset |
| `FrameLayout.AcceptedExactly` | native/src/parse.rs:112-242 | a byte string is accepted if and only if it is one of these layouts |
| `FrameLayout.UnsupportedExactly` | native/src/parse.rs:112-121 | a refusal is called unsupported if and only if the type field is neither IPv4's nor IPv6's |
| `ClientHello.ParseExtensions` | pirewall/detection/tls_fingerprint.py:152-177 | the loop returns the types, the last groups and the last point formats of the extension walk, on any bytes |
| `ClientHello.Ja3OfHello` | pirewall/detection/tls_fingerprint.py:97-144 | the JA3 string of a serialised ClientHello (section 4.1.2 of RFC 8446), whatever follows it, is its field lists without the sixteen GREASE values |
| `ClientHello.GreaseIsListed` | pirewall/detection/tls_fingerprint.py:56-59 | the test on the two bytes finds exactly the sixteen values of section 2 of RFC 8701 |
| `ClientHello.GreaseFilterExact` | pirewall/detection/tls_fingerprint.py:97-144 | the filter drops exactly those and keeps every other value in order |
| `ClientHello.RenderExample` | pirewall/detection/tls_fingerprint.py:97-144 | one fingerprint written out: commas between the fields, hyphens inside |
| `ClientHello.GreaseInvariant` | pirewall/detection/tls_fingerprint.py:56-59 | two hellos that differ in GREASE ciphers, extensions and groups alone (section 2 of RFC 8701) have one fingerprint |
| `ClientHello.Ja3IsTheFingerprint` | pirewall/detection/tls_fingerprint.py:97-144 | two serialised hellos, whatever follows them, have the same JA3 string if and only if their fingerprints agree |
| `ClientHello.GreaseLeavesJa3` | pirewall/detection/tls_fingerprint.py:56-59 | hellos that differ in GREASE alone have one JA3 string on the wire |
| `ClientHello.GreaseVanishes` | pirewall/detection/tls_fingerprint.py:97-144 | GREASE inserted anywhere leaves a list's filtered form unchanged |
| `ClientHello.RenderInjective` | pirewall/detection/tls_fingerprint.py:97-144 | two JA3 strings are equal if and only if all five fields are |
| `Heartbeat.HeartbeatVerdict` | pirewall/detection/tls_heartbeat.py:114-156 | a complete legal heartbeat record is reported exactly when it claims more bytes than it carries |
| `Heartbeat.OnlyOverclaims` | pirewall/detection/tls_heartbeat.py:114-156 | whatever is reported is such a record that claims more bytes than it carries |
| `Heartbeat.PrefilterExact` | native/src/flow.rs:633-651 | the prefilter takes heartbeat records and handshake records that start a ClientHello, and nothing else |
| `Heartbeat.PrefilterLosesNothing` | native/src/flow.rs:633-651 | a payload the native prefilter drops gets no answer from JA3 or the heartbeat check |
| `Pcap.PcapWriter.Write` | pirewall/capture/pcapio.py:287-297 | the stream stays the header and the records of the frames written so far; a frame out of range writes nothing |
| `Pcap.PcapReader.ReadRecords` | pirewall/capture/pcapio.py:117-149 | the record loop reports what the reader function says of any bytes |
| `Pcap.StampRoundTrip` | pirewall/capture/pcapio.py:87-89 | the microsecond time survives in both resolutions for any nanosecond remainder |
| `Pcap.BodyRoundTrip` | pirewall/capture/pcapio.py:117-149 | the written records read back as the same frames cut to snaplen with time and original length, if and only if each captured length is at most 262144 |
| `Pcap.FileRoundTrip` | pirewall/capture/pcapio.py:278-297 | the same for a whole file (sections 4 and 5 of draft-ietf-opsawg-pcap) |
| `Pcap.SnaplenBound` | pirewall/capture/pcapio.py:278-297 | every frame the writer accepts is safe if and only if the snaplen is at most 262144 |
| `Pcap.HeaderOctets` | pirewall/capture/pcapio.py:278-286 | the 24 octets the writer starts a file with |
| `Pcap.RecordOctets` | pirewall/capture/pcapio.py:287-297 | the octets of a record: seconds, fraction, captured and original length, captured data |
| `Pcap.KindOfFile` | pirewall/capture/pcapio.py:108-133 | the first four octets and the length alone tell pcapng, pcap in both byte orders and resolutions, a cut header, and anything else |
| `Pcap.WholeIsMaximal` | pirewall/capture/pcapio.py:117-149 | the number of whole records in a prefix is the largest that fits |
| `Pcap.CutBody` | pirewall/capture/pcapio.py:117-149 | any prefix of the records reads as its whole records, with the truncated tail reported exactly when the cut falls inside one |
| `Pcap.CutFile` | pirewall/capture/pcapio.py:117-149 | the same for any cut of a file at or after its 24-byte header |
| `RingBlock.WalkBlock` | native/src/capture.rs:72-107 | the loop visits the chain of packets and delivers what each holds, on any bytes |
| `RingBlock.CallsInside` | native/src/capture.rs:72-107 | every delivered frame is a slice of the block and deliveries never exceed visits |
| `RingBlock.WalkStaysInside` | native/src/capture.rs:72-107 | and visits never exceed the declared packet count |
| `RingBlock.FrameIsClamped` | native/src/capture.rs:72-107 | a frame that starts inside the block is delivered from there, as many octets as declared or all that are left; one that does not is skipped |
| `RingBlock.BlockRoundTrip` | native/src/capture.rs:438-459 | a block laid out as the kernel lays it out is delivered frame by frame, in order, with exact bytes and sec*1000000 + nsec/1000 |
| `TokenBucket.BucketTracksLevel` | lab/meter_sim.py:679-686 | after every arrival the bucket holds the level less the token taken, and its clock is the running maximum |
| `TokenBucket.LevelIsLeastAllowance` | lab/meter_sim.py:679-686 | the level is the least, over all earlier arrivals, of burst + refill since - packets passed since |
| `TokenBucket.RefusedExactlyWhen` | lab/meter_sim.py:679-686 | a packet is refused if and only if some earlier arrival i has (passed since i) + 1 > burst + rate * (time since i) |
| `MeterSet.MeterBounded` | lab/meter_sim.py:598-613 | one packet keeps a meter set within its declared size |
| `MeterSet.RunBounded` | lab/meter_sim.py:598-613 | and so does every run |
| `MeterSet.RateBound` | lab/meter_sim.py:539-549 | in any interval of T seconds one key takes at most (floor(T/timeout) + 2) * burst + rate * T tokens, across expiry and re-creation of its element |
| `MeterLaw.OutcomeExact` | lab/meter_sim.py:539-549 | for every packet in time order: unmetered if and only if its key has no unexpired element and size other keys have one; else over the limit if and only if some arrival i of the present element has (passed since i) + 1 > burst + rate * (time since i) |
| `MeterSim.ReplaySound` | lab/meter_sim.py:394-425 | after every run: verdict hits = trips' hits + backstop hits per guard, drops = verdicts when enforcing and none when observing, offenders and meter sets within size, drops per device add up, portal sets hold tracked connections only |
| `MeterSim.TripSound` | lab/meter_sim.py:564-577 | a trip keeps the books and the offender bound, also when the set is full |
| `MeterSim.BackstopSound` | lab/meter_sim.py:579-589 | a backstop keeps them |
| `MeterSim.JudgeBalances` | lab/meter_sim.py:591-596 | a verdict adds one hit to its guard alone and one drop exactly when that guard enforces |
| `MeterSim.PortalSound` | lab/meter_sim.py:551-562 | the portal rule leaves at most the connection about to be tracked outside conntrack |
| `MeterSim.ConntrackSound` | lab/meter_sim.py:629-648 | tracking the frame brings every portal set back inside conntrack |
| `MeterSim.ChainKeepsCore` | lab/meter_sim.py:436-524 | meters and backstops never touch conntrack, bindings or static drops, and pass every packet while no guard enforces |
| `MeterSim.ObserveIsTransparent` | lab/meter_sim.py:436-524 | while every guard observes, what is dropped, learnt and tracked after any run is as in the simulator without meters, backstops and limits |
| `MeterTrace.SimulatedSet` | lab/meter_sim.py:539-549 | after every run of the simulator a rule's set, or a backstop's bucket, is what metering its own packets alone would leave |
| `MeterTrace.DropsExactly` | lab/meter_sim.py:539-596 | a rate rule drops a packet if and only if its outcome is over the limit, its guard enforces and, for a meter, the offender can be recorded; without an overrun no trip, hit or drop is counted |
| `MeterTrace.FailOpenCounts` | lab/meter_sim.py:539-549 | a packet that goes unmetered is counted for its set, and no other is |
| `MeterTrace.LogOutcomes` | lab/meter_sim.py:539-549 | over every run the outcome of each packet put to a meter or a backstop is that of metering the rule's own packets alone |
| `MeterTrace.SimulatedRateBound` | lab/meter_sim.py:598-613 | in any interval of T seconds of a run in time order, a rule with a set of its own lets at most (floor(T/timeout) + 2) * burst + rate * T packets of one key pass for a token, by the simulator's own outcomes |
| `MeterVerdicts.SimulatedOutcomes` | lab/meter_sim.py:539-613 | in every run in time order the outcome of each packet put to a meter or a backstop follows, by the law of `MeterLaw.OutcomeExact`, from the packets put to it before |
| `MeterVerdicts.AskedExactly` | lab/meter_sim.py:436-524 | a rule is asked about a frame only if it is for it, by the frame's fields, the bindings and the tracked connections; and exactly then while no guard enforces |
| `MeterVerdicts.GuardOfChain` | pirewall/core/nft_names.py:251-265 | each rule's guard is that of the chain it stands in |
| `ChainOrder.AskedInOrder` | lab/meter_sim.py:436-524 | if a rule is asked about a frame, every rule that stands above it and is for the frame was asked too |
| `OffenderLaw.TripExact` | lab/meter_sim.py:564-577 | all a trip does: without room only offenders_full; else one hit of (mac, code), one verdict, an entry until at + timeout, and a drop if and only if the guard enforces |
| `OffenderLaw.OverIsNoted` | lab/meter_sim.py:539-577 | once a frame is through, a device that was over a limit is among the unexpired offenders, or the set is full of others |
| `OffenderLaw.BarredExactly` | lab/meter_sim.py:564-577 | over every run in time order an offender is unexpired if and only if its last trip is younger than the timeout |
| `ConntrackLaw.KeyIdentifies` | lab/meter_sim.py:689-694 | two frames have one conntrack key if and only if protocol and endpoints agree up to direction |
| `ConntrackLaw.ConntrackExact` | lab/meter_sim.py:629-660 | over every run in time order an entry says who opened the connection, whether the other end answered, whether FIN or RST was seen and when the last frame came; only overdue ones are forgotten |
| `ConntrackLaw.NewInRuns` | lab/meter_sim.py:623-627 | so a frame is new if and only if conntrack took in nothing of its connection, or that is overdue, or the opener sends and the other end never answered |
| `StaticLaw.AcceptsOnly` | lab/meter_sim.py:436-524 | a frame is let through only if it is whole, its source is plausible and it may go where it goes; and exactly then while no guard enforces |
| `StaticLaw.StaticDropsExact` | lab/meter_sim.py:394-448 | while no guard enforces each frame adds one to the counter of its reason and device and to no other; frames, ingress and the Pi's MAC from the frames |
| `PortalLaw.PortalRefuses` | lab/meter_sim.py:551-577 | a portal connection is refused if and only if its device is then over the limit, the input guard enforces and the offender set has room |
| `PortalLaw.PortalCounted` | lab/meter_sim.py:551-562 | a portal connection, passed or refused, is counted from then on if and only if the rule let it pass and conntrack held no stale entry of its key |
| `PortalLaw.StaleWhenAsked` | lab/meter_sim.py:650-660 | such an entry is left if and only if it was stale before the frame and no sweep was due |
| `PortalLaw.EventLaw` | lab/meter_sim.py:551-648 | after any frame, a connection put to the portal rule is counted if and only if it was admitted; every other one stays counted exactly while it is tracked and its entry is not made anew |
| `PortalLaw.PortalExact` | lab/meter_sim.py:551-660 | after each event of every run a connection is counted against a device if and only if it was once admitted for it and since then was not put to the rule again, stayed tracked and was not made anew |
| `PortalLaw.PortalMisses` | lab/meter_sim.py:551-562 | after one concrete run of three frames a connection is tracked and missing from its device's portal set: a stale entry was left |
| `PortalLaw.RefusalMisses` | lab/meter_sim.py:551-562 | after one concrete run of five frames a connection is tracked, not stale, and missing from the portal set: its repeated SYN was refused |
| `MeterSimulators.MeterSimulator.Feed` | lab/meter_sim.py:394-425 | the object is where its frames and readings lead (sweep, learn, direction, chains, conntrack); its sets are within their sizes and its portal sets within conntrack |
| `MeterSimulators.MeterSimulator.Offenders` | lab/meter_sim.py:664-667 | the unexpired offenders, never more than the declared size; while time went forward, exactly those whose last trip is younger than the timeout |
| `MeterSimulators.MeterSimulator.SetFill` | lab/meter_sim.py:669-676 | the live elements of a set, never more than its declared size |
| `MeterSimulators.MeterSimulator.VerdictHitsOf` | lab/meter_sim.py:713-719 | a guard's verdict counter is its trips' hits plus its backstops', and its drops are all of them or none |
| `MeterSimulators.MeterSimulator.PrerouteRaw` | lab/meter_sim.py:436-478 | refines the raw chain in its order |
| `MeterSimulators.MeterSimulator.HookChain` | lab/meter_sim.py:480-524 | refines the input and forward chains in their order |
| `MeterSimulators.MeterSimulator.FindElement` | lab/meter_sim.py:598-613 | the live element, a new full one, or none when the set is full even after expiring |
| `MeterSimulators.MeterSimulator.Limit` | lab/meter_sim.py:539-549 | one meter rule: fail open, pass, or trip |
| `MeterSimulators.MeterSimulator.TripOver` | lab/meter_sim.py:564-577 | refines a trip |
| `MeterSimulators.MeterSimulator.LimitAll` | lab/meter_sim.py:579-589 | refines a backstop |
| `MeterSimulators.MeterSimulator.Verdict` | lab/meter_sim.py:591-596 | refines a verdict |
| `MeterSimulators.MeterSimulator.PortalCount` | lab/meter_sim.py:551-562 | refines the portal rule |
| `MeterSimulators.MeterSimulator.Track` | lab/meter_sim.py:629-643 | refines conntrack, forgetting a stale entry first |
| `MeterSimulators.MeterSimulator.SweepAll` | lab/meter_sim.py:650-660 | forgetting stale connections one by one removes exactly them, everywhere |
| `Windows.QueueDecides` | pirewall/core/throttle.py:49-51 | a queue of the newest failures is full exactly when the window holds max_failures of the whole history |
| `Windows.WaitIsLeast` | pirewall/core/throttle.py:53-63 | the rounded-up time until the oldest kept failure leaves is the least whole number of seconds after which the key unlocks |
| `Throttle.FailureWindow.IsLockedOut` | pirewall/core/throttle.py:49-51 | with a clock that never went back, locked if and only if at least max_failures failures since the last clear or eviction lie in the window |
| `Throttle.FailureWindow.SecondsUntilUnlocked` | pirewall/core/throttle.py:53-63 | the least wait, zero when not locked |
| `Throttle.FailureWindow.RecordFailure` | pirewall/core/throttle.py:65-72 | the failure joins the key's history; the answer is true exactly when it locks the key; at most one other key is evicted |
| `Throttle.FailureWindow.MakeRoom` | pirewall/core/throttle.py:65-72 | eviction only from a full table for a new key, of a key whose newest failure is oldest |
| `Throttle.FailureWindow.Recent` | pirewall/core/throttle.py:78-87 | stale failures leave, no empty queue is stored, queues and table stay within their bounds, whatever the clock does |
| `Throttle.FailureWindow.Clear` | pirewall/core/throttle.py:74-76 | forgets one key and nothing else |
| `Throttle.ScopedThrottle.FindLockout` | pirewall/core/throttle.py:109-116 | no lockout exactly when no scope refuses; otherwise the wait unlocks every scope and no shorter wait unlocks the scope it names |
| `Indexes.RecountsPop` | pirewall/detection/behavior.py:360-365 | decrementing with removal at zero keeps an index equal to the recount of what is left |
| `Indexes.NestedPop` | pirewall/detection/behavior.py:339-352 | the same for ports per destination, where an empty inner index is removed |
| `Behavior.AdmittedExact` | pirewall/detection/behavior.py:215-259 | a new connection keeps all four indexes equal to the recount by their tracked flags |
| `Behavior.AdmittedWithin` | pirewall/detection/behavior.py:215-259 | and within their caps, new keys being refused when full |
| `Behavior.ExpiredExact` | pirewall/detection/behavior.py:339-352 | so does an expiring connection, however keys were refused and re-admitted |
| `Behavior.IndexesAreRecounts` | pirewall/detection/behavior.py:215-365 | after every run each index equals the count of live entries with its flag, has no zero or empty entry and stays within its cap |
| `BehaviorHistory.ConnectionsCounted` | pirewall/detection/behavior.py:224-250 | after every run a new connection is counted in an index if and only if a live one already is under its key or fewer keys than the cap have one |
| `BehaviorHistory.FailuresCounted` | pirewall/detection/behavior.py:267-288 | the same for an unanswered attempt |
| `BehaviorHistory.RunShown` | pirewall/detection/behavior.py:215-365 | with times in order and never more in the window than the caps hold, the live entries are exactly the operations inside the window, each counted everywhere |
| `BehaviorHistory.IndexesCountHistory` | pirewall/detection/behavior.py:215-365 | so each index counts the connections to a host, on a port, to a host and port, and the failures, inside the window |
| `BehaviorHistory.ClockIsLatest` | pirewall/detection/behavior.py:321-326 | the clock is the latest time of all, and never before the source was first seen |
| `Behavior.CapLosesNothing` | pirewall/detection/behavior.py:199-206 | a queue capped above the threshold agrees with the full log on reaching the threshold |
| `Behavior.FloodVerdictExact` | pirewall/detection/behavior.py:261-265 | with connection times in order and no destination turned away, FLOOD fires if and only if some destination got that many connections in the flood window, counting all of them |
| `Behavior.FloodVerdictAsBuilt` | pirewall/detection/behavior.py:465-469 | the same for every detector built with queues of ceil(threshold) + 1 entries, as they all are |
| `BehaviorHistory.RunRecentShows` | pirewall/detection/behavior.py:252-265 | no destination is turned away while the flood window never held more hosts than the cap |
| `BehaviorHistory.FloodFromHistory` | pirewall/detection/behavior.py:261-265 | so with times in order FLOOD fires if and only if some host got that many connections in the flood window |
| `SourceBehavior.SourceBehaviorState.ObserveNewConnection` | pirewall/detection/behavior.py:215-265 | the object is where its history leads, one connection longer |
| `SourceBehavior.SourceBehaviorState.ObserveCompletion` | pirewall/detection/behavior.py:267-288 | the same for the end of a flow |
| `SourceBehavior.SourceBehaviorState.Prune` | pirewall/detection/behavior.py:315-317 | the same for a clock tick |
| `SourceBehavior.SourceBehaviorState.AdvanceTo` | pirewall/detection/behavior.py:321-333 | the clock moves forward only; exactly the stale entries at the front leave |
| `SourceBehavior.SourceBehaviorState.ExpireEvent` | pirewall/detection/behavior.py:339-352 | the branches on the tracked flags do what dropping the event from every index does |
| `SourceBehavior.SourceBehaviorState.IsFlooding` | pirewall/detection/behavior.py:582-583 | with connection times in order and no destination turned away, the object's verdict is that of counting every connection it ever saw; and none is turned away while the window's hosts fit the cap |
| `SourceBehavior.SourceBehaviorState.MaxFailuresToSingleDestination` | pirewall/detection/behavior.py:166-175 | the most live unanswered attempts counted against any destination; while no cap was reached, the most that any got inside the window |
| `SourceBehavior.SourceBehaviorState.MaxConnectionsToSingleDestination` | pirewall/detection/behavior.py:192-193 | the most live connections counted against any destination and port; while no cap was reached, the most that any got inside the window |
| `SourceBehavior.SourceBehaviorState.ScannedPortBreadth` | pirewall/detection/behavior.py:177-189 | the most ports counted on any destination; while no cap was reached, the most that any was reached on inside the window |
| `SourceBehavior.SourceBehaviorState.DestinationDiversity` | pirewall/detection/behavior.py:151-153 | the destinations that live connections are counted for, within the cap; while no cap was reached, those reached inside the window |
| `Sightings.LeftIsEnough` | pirewall/detection_v2/d1.py:463-466 | what pruning removed is too old for any window measured at or after the prune |
| `Sightings.SightingQueue.Append` | pirewall/detection_v2/d1.py:243-259 | the bounded queue drops its oldest entry only when full |
| `Sightings.SightingQueue.Prune` | pirewall/detection_v2/d1.py:463-466 | without overflow and with measurement times in order, every window over the queue equals the window over the full history |
| `D1.MaxDistinct` | pirewall/detection_v2/d1.py:522-530 | the dictionary of sets yields the most distinct members of any group |
| `D1.MostSimilar` | pirewall/detection_v2/d1.py:474-493 | the grouped sizes yield the most exchanges near the median of any service |
| `D1.Outcomes` | pirewall/detection_v2/d1.py:468-472 | completed and failed starts are counted exactly |
| `D1.SlowRate` | pirewall/detection_v2/d1.py:343-378 | the most concurrent slow connections to any destination seen inside the window |
| `D1.MeasureDevice` | pirewall/detection_v2/d1.py:343-378 | each value equals the measure over everything the device ever did; an untracked device has none |
| `D1.MeasureDestination` | pirewall/detection_v2/d1.py:389-402 | fan-in equals the distinct devices over the full history; an untracked destination has none |
| `D1Law.WindowExact` | pirewall/detection_v2/d1.py:343-378 | a window holds exactly the sightings from since to now, both included, in order |
| `D1Law.ScansExact` | pirewall/detection_v2/d1.py:522-530 | the vertical value is the most ports tried on any host, the horizontal one the most hosts tried on any port |
| `D1Law.RatioExact` | pirewall/detection_v2/d1.py:468-472 | the failed among the completed starts, once enough have completed |
| `D1Law.BruteExact` | pirewall/detection_v2/d1.py:474-493 | the most exchanges at any service that completed in time, did not fail and are within the tolerance of the median size |
| `D1.SignalChangesNoMeasure` | pirewall/detection_v2/d1.py:463-530 | a start without an outcome changes no vertical, horizontal, failed-handshake or brute-force value if its destination and port are recorded anywhere before or after it |
| `D1.SignalChangesNothing` | pirewall/detection_v2/d1.py:15-22 | the same over every window of a history: seeing one connection twice, signal then record or record then signal, changes nothing |
| `D1.FanInIgnoresRepeat` | pirewall/detection_v2/d1.py:389-402 | nor any fan-in value |
| `PollHistory.StreakExact` | pirewall/detection_v2/kernel.py:149-191 | a streak is at least n if and only if the last n successful polls since the table was last missing all saw the offender |
| `PollHistory.DeltasTelescope` | pirewall/detection_v2/kernel.py:193-203 | the deltas add up to the last reading plus the reading before each reset |
| `PollHistory.CrowdedExactly` | pirewall/detection_v2/kernel.py:205-223 | a set is crowded if and only if it has a size and holds more than that part of it |
| `NftNames.CodeRoundTrip` | pirewall/core/nft_names.py:217-248 | each code is read from its own number, and nothing else is a code |
| `KernelPollers.KernelPoller.Tick` | pirewall/detection_v2/kernel.py:125-147 | every poll reports what its history says: offenders with their streak and start, their number, deltas, the largest fill ratio, alerts; failed polls change nothing, a missing table ends every episode; the hits reported so far add up to the deltas of all readings |
| `KernelPollers.HitsTelescope` | pirewall/detection_v2/kernel.py:193-203 | so all hits ever reported for a guard are its last reading plus the reading before each reset |
| `KernelPollers.KernelPoller.Track` | pirewall/detection_v2/kernel.py:149-191 | episodes of absent offenders end, those present gain one poll, and evidence names exactly those present |
| `KernelPollers.KernelPoller.Deltas` | pirewall/detection_v2/kernel.py:193-203 | the increase since the last reading, all of it after a reset; unread counters keep theirs |
| `KernelPollers.KernelPoller.FillAlerts` | pirewall/detection_v2/kernel.py:205-223 | one alert when a set becomes crowded, none until it drained |
| `KernelPollers.SustainedNeverEarly` | pirewall/detection_v2/kernel.py:149-191 | an id says sustained if and only if the guard enforces and the last sustained_polls successful polls all saw the offender |
| `KernelPollers.StepHistory` | pirewall/detection_v2/kernel.py:125-147 | how one more poll changes streaks, last readings and crowding |
| `Scoring.PlainBelowTotal` | pirewall/engine/scoring.py:82-139 | the deterministic score is never above the total, nor is its level |
| `Decision.CeilingExact` | pirewall/engine/decision.py:143-194 | with the ceiling on the action is the deterministic level's when at least MONITOR, else MONITOR if the full level is at least MEDIUM, else ALLOW; the maturity gate neither downgrades it nor asks its tracker |
| `Decision.ActionFromScores` | pirewall/engine/decision.py:143-194 | with the ceiling on: BLOCK, RATE_LIMIT if and only if the deterministic score reaches CRITICAL, HIGH; ALLOW if and only if the full score is below MEDIUM; else MONITOR |
| `Decision.ActionWithoutCeiling` | pirewall/engine/decision.py:143-226 | with the ceiling off: the same from the full score, where evidence neither mature nor consistent is only monitored |
| `Decision.ScoresAreSums` | pirewall/engine/scoring.py:82-139 | both scores are the sums of their parts, cut at 100 |
| `Decision.MlNonInterference` | pirewall/engine/decision.py:143-226 | changing ML evidence never brings about, prevents or changes a RATE_LIMIT or BLOCK |
| `Decision.BehaviorAloneBlocks` | pirewall/engine/scoring.py:111-139 | with the ceiling on, behaviour without a signature is blocked if and only if both behavior_weight and the summed pattern points reach CRITICAL, so a cap below CRITICAL never blocks |
| `Decision.SignatureAloneBlocks` | pirewall/engine/scoring.py:111-139 | a signature alone is blocked if and only if its weighted confidence reaches CRITICAL |
| `Decision.TrackerReachable` | pirewall/engine/decision.py:196-226 | with the ceiling off, some evidence asks the tracker if and only if the weights let immature evidence reach HIGH |
| `Decision.EvidenceMaturityTracker.Observe` | pirewall/engine/decision.py:120-136 | consistent exactly after that many calls for the source since it was last evicted; only the source seen longest ago is evicted |
| `Decision.Decide` | pirewall/engine/decision.py:143-180 | the gate downgrades to MONITOR exactly when the evidence is not mature and the tracker, if there is one, is not yet consistent; otherwise the tracker is untouched |

## Left out

- Rounding of floating point, and the square roots of the standard deviations: statistics, tokens and scores are exact reals.
- Rust's `RunningStats` and `FlowState` are values here: the program stores them by value in the slab and moves them, and nothing aliases them.
- Slow-connection clusters and per-source snapshots of the flow engine: filters over the table whose state is already covered.
- Panic injection and locking: recovery repairs any table, and the conservation theorems are about runs in which the table was consistent when it was called.
- pcapng files, link types other than the count of skipped records, and the per-record truncation statistic.
- The MD5 of the JA3 string and the table of known tools: a digest and a lookup over the string modelled here.
- Sockets, memory maps and the kernel's side of the capture ring: the walker gets its block as bytes.
- Rendering and parsing the firewall template, and parsing frames for the simulator: their results are parameters, with what parsing guarantees as a type.
- Device names are numbers (MAC and IPv4 addresses), and the order of keys in Python dictionaries is kept only where a result depends on it; a tie for the stalest throttle key is broken arbitrarily.
- MeterSimulators.MeterSimulator.PrerouteRaw: the rules of a chain are walked as a list in their order, one dynamic set per rule name, instead of being written out as branches.
- Throttle.ScopedThrottle: recording a failure in every scope and clearing one scope, which only repeat the single window's operations.
- Throttle.FailureWindow: histories are followed only while the clock does not go back; the bounds hold always.
- Behaviour patterns other than the indexes and FLOOD (frequency, burst, persistence, timing, slow connections), the least-recently-used table of sources, and the explanation texts.
- D1: the least-recently-used tables of devices, destinations and accounts (an evicted device starts over with an empty queue), new-device, lease and portal-failure rates, thresholds and evidence ids; the median is a parameter.
- KernelPollers.KernelPoller.Tick: evidence is a mapping, so its sorted order is not stated; alert and error texts are not modelled.
- Decision texts, confidences of the assessment and the label test for attack classes, which is a flag of the evidence.
- Campaign orchestration, the web application, configuration loading beyond the bounds used as preconditions, machine-learning training and inference.
