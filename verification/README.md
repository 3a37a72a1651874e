# Verified core of a multipath game tunnel

The tunnel carries a machine's game traffic over several network paths at once. Beneath its Windows
plumbing sit packet, state-machine and arithmetic algorithms that have to be right on inputs nobody
can enumerate: fragments in any order, repairs after any loss, policy messages in any interleaving.
This project models those algorithms in Dafny and proves what they are for.

How the model is built:

- An object whose methods change its fields is a `class`; each method is proved against a function of
  the old state, and the theorems about whole runs are proved about that function.
- A concurrent protocol (`DirectRoutes`, `Flush`) is a state machine over the atomic steps of its
  threads, under every interleaving.
- Times are milliseconds, addresses and path identities are values, and scores are `real` numbers.
  A choice the code leaves to a hash map's iteration order (which of several equally old entries is
  evicted) is a parameter, `victim`, about which only what the code guarantees is assumed.
- Octets are `byte`, and integer widths, wrap-around and truncating division are written out where the
  code depends on them.

| files | component |
|---|---|
| `Bytes`, `Bits`, `Arithmetic`, `Sorting` | octets and words, single bits, facts about collections and remainders, sorting |
| `Checksum`, `Echo`, `Readdress` | the Internet checksum, echo packets, the incremental update |
| `Ipv4Split`, `Reassembly`, `ReassemblyTiles`, `RoundTrip`, `RoundTripRuns`, `ReassemblySafety`, `ReassemblyTimes`, `ReassemblyLaws` | splitting and reassembling IPv4 datagrams |
| `Parity`, `FecFormat`, `FecEncoder`, `FecGroups`, `FecDeadline`, `FecDecoder`, `FecRuns`, `FecRetries`, `FecCounts`, `FecEndToEnd`, `FecDelivery`, `Hysteresis`, `Mtu` | loss repair, its adaptation and its budget |
| `Replay` | the replay window |
| `Cidr`, `DirectList`, `DirectRoutes`, `Installation`, `RouteKeeping`, `RouteProgress` | the direct list and the routes installed for it |
| `Scheduler`, `ProbeLaws`, `Ranking`, `PathChoice`, `SchedulerLaws`, `Duplication`, `Escalation` | path metrics and the choice of paths |
| `FragmentRouter`, `FragmentRouterRuns`, `FragmentVerdicts` | one route for all fragments of a datagram |
| `Endpoints`, `EndpointsRuns`, `EndpointLaws` | the relay's return-path table |
| `Dns`, `DnsReaders`, `CompressedNames` | printing and reading names |
| `Flush` | the coalesced cache flush |
| `Civil` | dates in log lines |

## Where the code and its documentation differ

- The comment on `replace` (engine/src/direct_routes.rs:219-220) says nothing that keeps its route
  ever loses it. It fails when a learned address and an installed prefix share one row, in either
  direction: `RouteKeeping.RouteLost` and `RouteKeeping.AddressLost` are two runs that break it.
  `RouteKeeping.StepKeepsRoutedIff` says exactly which steps do, `RouteKeeping.RunRoutedIff` lifts that
  to runs, and `RouteKeeping.WideListsKeepRoutes` gives callers lists for which it never happens.
- The comment on `query` (engine/src/dns.rs:29-31) promises to refuse names over 255 octets on the
  wire. The condition at engine/src/dns.rs:50 allows one octet more: `Dns.LimitExceeded` names such a
  hostname, and `Dns.LimitKeptIff` says that names of exactly 256 octets are the only exception.
- A flush request is only certain to be followed by a flush while worker threads can be started
  (engine/src/netconfig.rs:295-297). `Flush.FailureStrands` is a run that strands one;
  `Flush.OutstandingIff` gives the exact condition, AGAIN still set and a failed start since the last
  flush began, of which the failure alone is not enough (`Flush.FailureHarmless`).

## Model

| member | source | states |
|---|---|---|
| Checksum.Fold | engine/src/icmp.rs:119-121 | the carry-folding loop computes the one's-complement sum: congruent modulo 65535, zero only for zero |
| Checksum.ComputeChecksum | engine/src/icmp.rs:110-123 | the 32-bit accumulation loop, odd tail included, computes the complement of the one's-complement sum of all words without wrapping |
| Checksum.InternetChecksum | engine/src/icmp.rs:110-123 | the checksum of a buffer is zero exactly when its words sum to a positive multiple of 65535 |
| Checksum.WrittenChecksumVerifies | engine/src/icmp.rs:110-123 | a checksum written into a zeroed field at any even offset makes the checksum of the whole zero |
| Checksum.WordSumPut | engine/src/icmp.rs:110-123 | overwriting an aligned word changes the word sum by exactly the difference |
| Echo.EchoHeader | engine/src/icmp.rs:16-25 | the IPv4 header of an echo: length, flags, addresses, verifying checksum |
| Echo.EchoMessage | engine/src/icmp.rs:26-32 | the echo itself: type, identifier, sequence, payload, verifying checksum |
| Echo.EchoPacket | engine/src/icmp.rs:7-62 | build then parse: for all addresses and identifiers the parser returns the sequence exactly for the ones the packet was built with, and only from a reply |
| Echo.ReplyIff | engine/src/icmp.rs:37-62 | the parser accepts exactly the whole, unfragmented IPv4 packets, options or not, that carry an echo reply between these addresses with this identifier and a verifying checksum |
| Readdress.Updated | engine/src/ipv4_fragments.rs:86-115 | an updated checksum is a 16-bit value, and never zero for UDP |
| Readdress.UpdatedVerifies | engine/src/ipv4_fragments.rs:86-115 | if the checksum of the whole datagram verified under the old addresses, the incrementally updated one verifies it under the new ones |
| Readdress.UpdatedIsFresh | engine/src/ipv4_fragments.rs:86-115 | the update gives the very value a fresh computation would, if and only if the protocol is UDP or the update sum is positive |
| Readdress.SumAddresses | engine/src/ipv4_fragments.rs:101-105 | the loop over address words computes the sum of the complemented checksum, the complemented old words and the new words |
| Readdress.ReaddressTransportChecksum | engine/src/ipv4_fragments.rs:86-115 | the in-place edit writes exactly the corrected packet, or reports failure and leaves the buffer alone |
| Readdress.CorrectedIff | engine/src/ipv4_fragments.rs:86-115 | the call gives up exactly on a TCP or UDP packet that ends before its checksum does, leaves other protocols and a UDP packet without a checksum alone, and changes nothing but the field |
| Readdress.FirstFragmentVerifies | engine/src/ipv4_fragments.rs:86-115 | every TCP or UDP first fragment that reaches past its checksum is corrected: whatever octets follow it, a datagram that verified before verifies after, addresses untouched, UDP never left without a checksum |
| Ipv4Split.FlagsWord | engine/src/ipv4_fragments.rs:163-167 | offset, More Fragments and Don't Fragment read back from the or-ed word; an offset of 8192 units spills into More Fragments |
| Ipv4Split.MakeFragment | engine/src/ipv4_fragments.rs:157-172 | a piece keeps the sender's fields, carries its own length and flags, and its header checksum verifies |
| Ipv4Split.ChunkSize | engine/src/ipv4_fragments.rs:151-151 | chunks are the largest multiple of eight octets that fits the mtu behind a header |
| Ipv4Split.WholeIsFragment | engine/src/ipv4_fragments.rs:137-147 | a whole datagram is the one-piece tiling of itself |
| Ipv4Split.SplitAnswers | engine/src/ipv4_fragments.rs:123-147 | the splitter answers exactly for a packet without options that is complete and says it is longer than an mtu of at least 28, Don't Fragment or not; a router's split exactly for those of them that allow fragmenting |
| Ipv4Split.SplitIff | engine/src/ipv4_fragments.rs:123-147 | a datagram or fragment a sender emits is split if and only if it is longer than the mtu, and by a router if and only if it also allows it |
| Ipv4Split.SplitTiles | engine/src/ipv4_fragments.rs:137-175 | every datagram or fragment longer than an mtu of at least 28, with Don't Fragment or without, is split into at least two sendable pieces that tile the same stretch of the same datagram |
| Ipv4Split.FragmentTiles | engine/src/ipv4_fragments.rs:123-128 | every one that allows fragmenting is split by a router into a tiling of the same stretch, Don't Fragment clear on every piece |
| Ipv4Split.ResplitTiles | engine/src/ipv4_fragments.rs:137-175 | splitting any one piece of a tiling again leaves a tiling of the same datagram |
| Reassembly.ReadParts | engine/src/ipv4_fragments.rs:222-233 | what push reads from a well-formed fragment: header and payload are the packet up to its length field, and the header gives the key, the offset and More Fragments |
| ReassemblyLaws.MalformedIff | engine/src/ipv4_fragments.rs:222-227 | a packet is malformed exactly when its stated header and total lengths cannot be |
| ReassemblyLaws.MisplacedIff | engine/src/ipv4_fragments.rs:228-237 | a well-formed fragment is refused exactly when it is a middle piece of no whole number of eight octets or would end past 65,535 |
| Reassembly.Reassembler.Push | engine/src/ipv4_fragments.rs:217-318 | one call of push has exactly the specified effect and result, evicting only an oldest datagram and only when a new one needs room |
| Reassembly.Reassembler.DiscardKey | engine/src/ipv4_fragments.rs:326-330 | a datagram is given up and counted, once, if it is held |
| Reassembly.Reassembler.ExpireOld | engine/src/ipv4_fragments.rs:218-221 | exactly the datagrams past the timeout leave, and are counted |
| Reassembly.Reassembler.MakeRoom | engine/src/ipv4_fragments.rs:238-245 | a new datagram among 64 displaces an oldest one |
| Reassembly.TakeIn | engine/src/ipv4_fragments.rs:246-317 | the branches for duplicate, conflict, too many pieces, wrong end, waiting and complete |
| Reassembly.Rebuild | engine/src/ipv4_fragments.rs:276-317 | sorting, the coverage loop and the rebuilt header |
| ReassemblyLaws.PieceIs | engine/src/ipv4_fragments.rs:246-317 | an exact copy is ignored; a piece completes its datagram if and only if the first and the last piece are known and all lie side by side to the end within 65,535 octets, is kept if and only if one is unknown or the first irregularity is a gap, and otherwise gives the datagram up: second end, other octets at a held offset, sixty-fifth piece, overlap, excess |
| ReassemblyTiles.CoverAll | engine/src/ipv4_fragments.rs:285-302 | all tiles, in whatever order they came, cover to the end and concatenate to the body |
| ReassemblyTiles.CoverGap | engine/src/ipv4_fragments.rs:285-302 | with the last tile held and another missing, coverage finds a gap |
| RoundTrip.ReadFragment | engine/src/ipv4_fragments.rs:222-237 | a fragment of a datagram is read back as its key, place and octets |
| RoundTrip.HeaderRestored | engine/src/ipv4_fragments.rs:303-317 | the rebuilt header is the original one, checksum included |
| RoundTrip.AbsorbTile | engine/src/ipv4_fragments.rs:246-317 | one arriving fragment is ignored if held, completes the datagram if it was the last missing, and is kept otherwise |
| RoundTripRuns.RoundTripTheorem | engine/src/ipv4_fragments.rs:123-318 | split then reassemble is the identity: any tiling, any order, any repetition, mixed with other traffic; the call that delivers the last missing piece returns the datagram, no earlier one does, nothing is left behind |
| RoundTripRuns.SplitRoundTrip | engine/src/ipv4_fragments.rs:123-318 | every datagram longer than an mtu of at least 28 that takes at most 64 pieces is split, and what the splitter makes of it comes out again, in any order, repeated and mixed with other traffic |
| ReassemblySafety.RunSafe | engine/src/ipv4_fragments.rs:217-331 | over every run at most 64 datagrams of at most 64 pieces are held, each made of pieces sent under its key at distinct offsets |
| ReassemblySafety.ReturnedIsTiled | engine/src/ipv4_fragments.rs:217-318 | whatever the fragments, a returned datagram is one header and a gap-free, overlap-free tiling of [0, end) by pieces of its key, with matching length and verifying header checksum |
| ReassemblySafety.ConflictDiscards | engine/src/ipv4_fragments.rs:252-260 | different octets at a held offset discard and count the datagram |
| ReassemblyLaws.DiscardedIs | engine/src/ipv4_fragments.rs:217-331 | over every run the discarded count is what was malformed or begun, less what was returned and what is still held |
| ReassemblyTimes.NothingOlder | engine/src/ipv4_fragments.rs:218-221 | a call forgets exactly the datagrams begun two seconds before, and leaves none so old |
| ReassemblyTimes.ReturnedInTime | engine/src/ipv4_fragments.rs:217-318 | over every run a returned datagram is made of pieces that all arrived within two seconds |
| Parity.XorMember | engine/src/fec.rs:289-300 | the in-place loop folds in the length-prefixed packet, growing the parity as needed |
| Parity.ParityLength | engine/src/fec.rs:289-300 | the parity is exactly as long as the longest framed member |
| Parity.FoldOthers | engine/src/fec.rs:289-300 | folding all members but one into the parity leaves that member's frame, then zeros |
| FecFormat.ParseRepair | engine/src/fec.rs:421-452 | the parsing loop is the specified reader, every refusal included |
| FecFormat.ParseRepairOf | engine/src/fec.rs:397-452 | reading back a written repair gives its members in order and their parity |
| FecFormat.ParseIff | engine/src/fec.rs:421-452 | any payload at all is read exactly when it has this version, one to four members whose offsets ascend within the sequences, and more parity than a length; what is read is what it says |
| FecFormat.RepairLength | engine/src/fec.rs:85-92 | a repair exceeds its longest member by at most the reserved header |
| FecEncoder.Encoder.constructor | engine/src/fec.rs:317-327 | a new encoder is empty with clamped group size and limit |
| FecEncoder.Encoder.Push | engine/src/fec.rs:352-369 | one push emits and leaves exactly what the specification says; the parity buffer and offsets array represent the open group |
| FecEncoder.Encoder.CanJoinOpen | engine/src/fec.rs:371-377 | a packet joins unless it is out of order, too far or too late |
| FecEncoder.Encoder.SetGroupSize | engine/src/fec.rs:341-348 | a changed size closes the open group first |
| FecEncoder.Encoder.SetMaxPacket | engine/src/fec.rs:335-337 | the limit changes and nothing else |
| FecEncoder.Encoder.FlushDue | engine/src/fec.rs:389-395 | an expired group is closed, another left alone |
| FecEncoder.Encoder.Close | engine/src/fec.rs:397-411 | closing emits the repair of the open group and empties it |
| FecEncoder.StepValid | engine/src/fec.rs:341-411 | every call keeps the open group ascending, in span and within its size |
| FecEncoder.Conservation | engine/src/fec.rs:341-411 | over every run the members parsed from the emitted repairs, then the open group, are the accepted pushes, once each and in order |
| FecEncoder.RepairsFit | engine/src/fec.rs:85-92 | over every run every repair is within the packet limit plus the reserved header |
| FecGroups.PushIs | engine/src/fec.rs:352-381 | a push is left out, joins the open group, or closes it and starts another, exactly as its size, the room, the order, the span of 255 and the five milliseconds decide |
| FecGroups.SettingsAre | engine/src/fec.rs:335-348 | the group size asked for is taken within one and four, the limit within 65,535; only a changed size closes the open group |
| FecGroups.SteadyStream | engine/src/fec.rs:352-381 | a stream of pushes that come in order and in time is cut into groups of exactly the group size |
| FecGroups.SteadyRepairs | engine/src/fec.rs:352-411 | in such a stream every n-th push after the first emits the repair of the n before it, and no other push emits |
| FecDeadline.FlushCloses | engine/src/fec.rs:379-395 | flush_due closes a group if and only if five milliseconds have passed since it was opened |
| FecDeadline.FlushedInTime | engine/src/fec.rs:352-411 | over every run a packet protected five milliseconds before a call of flush_due is in a repair emitted by the end of it |
| FecDecoder.Decoder.RememberPacket | engine/src/fec.rs:480-491 | a packet overwrites its slot modulo 512, only while storing |
| FecDecoder.Decoder.RebuildPacket | engine/src/fec.rs:569-585 | the folding loop gives up on a missing member or a bad length, and otherwise returns the unframed rest |
| FecDecoder.Decoder.ResolveRepair | engine/src/fec.rs:543-567 | none, one or several missing members: dropped, rebuilt or kept pending within the bound |
| FecDecoder.Decoder.Accept | engine/src/fec.rs:503-513 | a repair that parses is counted, makes the decoder store if it has several members, and is resolved |
| FecDecoder.Decoder.Retry | engine/src/fec.rs:523-541 | pending repairs expire, complete or are retried as specified |
| FecRuns.RebuildIs | engine/src/fec.rs:569-585 | rebuilding yields the packet sent under the missing sequence, and succeeds whenever the others are stored |
| FecRuns.FoldStoredIff | engine/src/fec.rs:569-577 | whatever the repair, folding fails exactly for want of a stored packet or of room for it |
| FecRuns.Soundness | engine/src/fec.rs:480-585 | whatever is lost, repeated, reordered or believed delivered, a returned packet is the one sent under its sequence |
| FecRuns.StoresFromFirstRepair | engine/src/fec.rs:503-513 | over every run the decoder stores packets if and only if a repair of two or more members has been accepted |
| FecRuns.RetainedIsStored | engine/src/fec.rs:480-498 | a packet remembered after a repair of two or more members was accepted, and not overwritten in its slot, is still stored, however long the run |
| FecRuns.Completeness | engine/src/fec.rs:503-585 | with exactly one member missing when its repair is accepted and the others retained, the repair returns it at once |
| FecRetries.RetryStep | engine/src/fec.rs:523-541 | a retry while a pending, young repair misses one member and the others are stored brings that member back or takes another repair off the list |
| FecRetries.RetryKeeps | engine/src/fec.rs:523-541 | a retry while several members of a young pending repair are missing leaves it on a list that has not grown |
| FecRetries.PendingBounded | engine/src/fec.rs:543-560 | over every run at most 32 repairs are pending |
| FecRetries.PendingBrings | engine/src/fec.rs:523-541 | a pending repair brings its last missing member back within as many retries that find only that one missing as there are pending repairs, and one more for every repair accepted meanwhile, whatever other retries come between, unless it is displaced or the member delivered otherwise |
| FecRetries.LateCompleteness | engine/src/fec.rs:503-585 | a repair that overtakes its data, accepted with several members missing and retried any number of times while several still are, brings the last one back once the others have arrived and are retained |
| FecCounts.AcceptCounts | engine/src/fec.rs:503-567 | an accepted repair is kept, returned, not needed or counted as unrecoverable; with 32 pending and several members missing it displaces the oldest |
| FecCounts.RetryCounts | engine/src/fec.rs:523-567 | a retry drops and counts exactly the repairs that are half a second old and still incomplete, drops the complete ones uncounted, and takes at most one other off the list |
| FecCounts.RepairsAccounted | engine/src/fec.rs:503-567 | over every run each repair received is pending, brought a packet back, was found complete or is counted as unrecoverable, exactly once |
| FecEndToEnd.EmitsPushedGroup | engine/src/fec.rs:341-411 | every repair an encoder run emits is the repair of a group of packets that run has pushed |
| FecEndToEnd.EndToEnd | engine/src/fec.rs:302-585 | encoder and decoder together: whatever order, loss and repetition of what a sender run emitted, a returned packet was pushed under its sequence |
| FecDelivery.GroupUnique | engine/src/fec.rs:397-452 | a payload stands for one group of sent packets only |
| FecDelivery.DeliveredCompleteness | engine/src/fec.rs:302-585 | a repair emitted in a sender run brings back its one missing member at once, when the others arrived and were kept |
| FecDelivery.LateDelivery | engine/src/fec.rs:302-585 | and when it arrives before its data, a later retry brings it back |
| Hysteresis.MultipathPolicy.ObserveLoss | engine/src/fec.rs:146-167 | one reading moves the clock and the mode as specified |
| Hysteresis.MultipathPolicy.InterruptClock | engine/src/fec.rs:180-182 | an interruption stops the clock and keeps the mode |
| Hysteresis.ChangesIff | engine/src/fec.rs:143-183 | over every run with non-decreasing time the mode changes exactly at the end of an unbroken, uninterrupted streak of crossing readings that lasted long enough |
| Hysteresis.GroupChanges | engine/src/fec.rs:143-183 | the group shrinks exactly after 10 s of readings of at least 10 %, and grows exactly after 60 s of readings under 4 % |
| Hysteresis.RecordPacks | engine/src/fec.rs:212-216 | shifting and masking the word prepends an outcome to the sequence it encodes |
| Hysteresis.CountOnesIsLosses | engine/src/fec.rs:228-231 | the population count is the number of losses |
| Hysteresis.ProbeHistory.Record | engine/src/fec.rs:212-216 | the packed word refines the last 60 outcomes |
| Hysteresis.NewestSixty | engine/src/fec.rs:212-216 | over every run of probes the history is the newest sixty outcomes, newest first |
| Hysteresis.ProbeHistory.ForgetOutage | engine/src/fec.rs:220-225 | exactly the newest run of losses is dropped |
| Hysteresis.ProbeHistory.Loss | engine/src/fec.rs:228-231 | the share of losses, once there are enough samples |
| Mtu.PathBudgetExact | engine/src/mtu.rs:97-138 | a packet's longest frame crosses a path whole exactly when the packet is within the path's budget, WireGuard padding included |
| Mtu.OverheadExact | engine/src/mtu.rs:97-122 | a path's overhead is exactly what it adds to a packet's longest frame, WireGuard padding aside |
| Mtu.WorstIs | engine/src/mtu.rs:182-198 | the reduction over path kinds finds the greatest overhead and the least budget, each of some path |
| Mtu.SessionBudgetExact | engine/src/mtu.rs:176-212 | the session's budget is exactly the largest packet whose longest frame crosses every path whole |
| Mtu.LimitKeepsBudget | engine/src/mtu.rs:199-231 | a provider's limit between 1280 and 1500 caps budget and interface, any other changes neither; the interface has the larger of the budget and 1280, and the flag says which |
| Mtu.Unfragmented | engine/src/mtu.rs:238-240 | the signalled size is between its floor and the interface's |
| Mtu.SignalledIs | engine/src/mtu.rs:238-240 | the signalled size never exceeds the interface, nor the budget unless that is under 1228, and is the largest such |
| Mtu.RepairsFitTheLink | engine/src/fec.rs:85-92 | every repair an encoder limited to the session's budget ever emits crosses every path of the session whole |
| Replay.ReplayWindow.Accept | engine/src/replay.rs:113-141 | the circular bitmap refines the set of accepted sequences: the verdict is a function of that set alone, and the set grows by exactly the accepted sequence |
| Replay.ReplayWindow.WouldAccept | engine/src/replay.rs:80-84 | predicts the verdict of accept, which is the same function of the same set |
| Replay.ReplayWindow.IsTooOld | engine/src/replay.rs:86-88 | true exactly when an accepted sequence is a window or more ahead |
| Replay.ReplayWindow.Skip | engine/src/replay.rs:125-131 | the clearing loop forgets exactly the sequences an advance skips over |
| Replay.AcceptsByNewest | engine/src/replay.rs:113-141 | the rule on the set is the code's rule on the newest sequence |
| Replay.RefusedIff | engine/src/replay.rs:113-141 | over every run a call is refused exactly when an accepted earlier one repeats it or is a window ahead |
| Replay.AtMostOnce | engine/src/replay.rs:113-141 | no sequence is accepted twice |
| Replay.ReorderingAccepted | engine/src/replay.rs:113-141 | distinct sequences displaced by less than the window are all accepted |
| Cidr.TrailingZeros | engine/src/direct_list.rs:155-173 | the largest power of two that divides a start |
| Cidr.Greedy | engine/src/direct_list.rs:155-173 | the block taken at a start is aligned and stays within the range |
| Cidr.GreedyLargest | engine/src/direct_list.rs:155-173 | no aligned block at that start within the range is larger |
| DirectList.ParsedRange | engine/src/direct_list.rs:198-211 | an entry denotes exactly the addresses that agree with it in its prefix bits, host bits ignored, and nothing if it is too wide |
| DirectList.Merge | engine/src/direct_list.rs:232-244 | the merged ranges are sorted, disjoint and not adjacent, and hold the same addresses |
| DirectList.PartitionPoint | engine/src/direct_list.rs:110-117 | the bisection finds the boundary between starts at most the address and starts above it |
| DirectList.DirectRanges.constructor | engine/src/direct_list.rs:64-88 | a compiled list denotes the union of its usable entries and counts every other one as skipped |
| DirectList.DirectRanges.Contains | engine/src/direct_list.rs:110-117 | binary search decides membership in the denoted set |
| DirectList.DirectRanges.Exclude | engine/src/direct_list.rs:133-151 | exactly the one address leaves, and the list stays canonical |
| DirectList.RangeBlocks | engine/src/direct_list.rs:155-173 | the loop ends, its blocks tile the range, and every aligned block within the range lies in one of them |
| DirectList.DirectRanges.Prefixes | engine/src/direct_list.rs:155-173 | aligned, pairwise disjoint blocks whose union is exactly the denoted set |
| DirectList.Fewest | engine/src/direct_list.rs:155-173 | no set of CIDR blocks with that union is smaller |
| DirectList.Compile | engine/src/direct_routes.rs:284-299 | compiling and excluding each protected address leaves exactly the listed addresses that are not protected |
| DirectList.DirectBlocks | engine/src/direct_list.rs:64-173 | from entries to routes: disjoint aligned blocks with exactly those addresses, and no set of blocks with them is smaller |
| DirectRoutes.TakeKeeps | engine/src/direct_routes.rs:55-282 | every atomic step of learn, install, replace, refresh and drop keeps the invariant: each row is tracked or being tracked under its lock |
| DirectRoutes.Safety | engine/src/direct_routes.rs:55-282 | the invariant holds in every interleaving, with at most 4096 learned addresses |
| DirectRoutes.NothingAfterDrop | engine/src/direct_routes.rs:269-282 | once drop has completed no row remains, and no later step of any learn call adds one |
| RouteProgress.LearnedIff | engine/src/direct_routes.rs:55-95 | learn passes over an address its list covers, and routes and keeps exactly those of the others that are new, below the limit of 4096 and not too late |
| RouteProgress.InstallLowers | engine/src/direct_routes.rs:97-148 | every step of the installer brings its end nearer, whatever Windows answers |
| RouteProgress.InstallerGoesOn | engine/src/direct_routes.rs:97-148 | a working installer can always take a step: no other thread holds the lock it needs |
| RouteProgress.ListCanBeInstalled | engine/src/direct_routes.rs:97-148 | from every reachable state the current list can be installed in full but for the routes already refused, by the installer's steps alone |
| RouteProgress.OwnerLowers | engine/src/direct_routes.rs:219-282 | every step of a replacement or a teardown brings its end nearer |
| RouteProgress.SomeoneGoesOn | engine/src/direct_routes.rs:55-282 | no deadlock: the owner can go on, or whoever it waits for can, a caller of learn letting go of its lock within three steps |
| RouteProgress.DropCompletes | engine/src/direct_routes.rs:269-282 | from every reachable state teardown can be completed, and then no row is left |
| RouteProgress.ReplacedOutside | engine/src/direct_routes.rs:219-235 | in every interleaving no learned address is kept that the new list covers |
| RouteProgress.OldInstallerStops | engine/src/direct_routes.rs:97-267 | once a replacement or teardown waits for it, an installer for the older list tries to add at most one more route |
| Installation.InstalledIs | engine/src/direct_routes.rs:97-148 | in every interleaving, once the installer has finished and until the next list takes effect, the installed routes are the listed ones but for exactly those that failed to be added since it was started |
| Installation.ListedAreRouted | engine/src/direct_routes.rs:97-148 | and they have their rows, when no step of the run took one away from the other side |
| RouteKeeping.StepKeepsRoutedIff | engine/src/direct_routes.rs:55-282 | for every atomic step: each kept route still has its row if and only if the step does not remove a row that the other side keeps or has just placed |
| RouteKeeping.RunRoutedIff | engine/src/direct_routes.rs:55-282 | over every run each kept route has its row throughout if and only if no step of it does that |
| RouteKeeping.WideListsKeepRoutes | engine/src/direct_routes.rs:219-235 | the promise of replace holds throughout every run whose lists never hold a single address as a block of its own |
| RouteKeeping.RouteLost | engine/src/direct_routes.rs:219-235 | a reachable quiet state in which a listed, installed prefix has lost its row to the withdrawal of a learned address |
| RouteKeeping.AddressLost | engine/src/direct_routes.rs:97-148 | a reachable quiet state in which a kept learned address has lost its row to the withdrawal of a stale prefix |
| Scheduler.PathMetrics.RecordProbe | engine/src/scheduler.rs:82-105 | one probe's effect on the metrics |
| Scheduler.PathMetrics.RecordLoss | engine/src/scheduler.rs:107-115 | one loss's effect on the metrics |
| Scheduler.ProbesStaySane | engine/src/scheduler.rs:82-115 | every probe history leaves latency, jitter and loss in range, and three losses in a row leave the route inactive |
| ProbeLaws.SettlesAfterTen | engine/src/scheduler.rs:82-121 | over every probe history a loss or spike among the last ten probes leaves a route unsettled, and ten ordinary answers in a row settle it |
| ProbeLaws.LatencyWithinAnswers | engine/src/scheduler.rs:82-105 | the smoothed latency stays within the range of the answers, and the jitter within its width |
| ProbeLaws.InactiveIff | engine/src/scheduler.rs:82-115 | over every probe history a route is inactive if and only if its last three probes were lost, measured if and only if one came back, and every probe is counted |
| ProbeLaws.AverageMoves | engine/src/scheduler.rs:82-115 | latency and jitter move a fifth of the way to each answer, the loss ratio a twentieth of the way to zero or one |
| ProbeLaws.Forgets | engine/src/scheduler.rs:82-115 | after k losses, or k equal answers, exactly the k-th power of 0.95, or of 0.8 for the latency, is left of where the averages were |
| ProbeLaws.NeverTroubled | engine/src/scheduler.rs:82-121 | a route never lost and never much slower than usual is settled and shows no loss |
| Scheduler.OrderIs | engine/src/scheduler.rs:203-217 | the ranking holds exactly the eligible routes, once each, by discounted score and then position |
| Ranking.IncumbentHolds | engine/src/scheduler.rs:42-217 | a route carrying traffic stays ahead of one that is not if and only if that one is better by at most 8 ms and the carrier's jitter, the position deciding a tie |
| Ranking.WorseNeverLeads | engine/src/scheduler.rs:123-217 | of two routes that both carry traffic, or neither, the one no better in latency, jitter and loss and worse in one never leads |
| Ranking.SingleIsLowest | engine/src/scheduler.rs:198-264 | a single choice is always the lowest bid in latency, jitter and loss, or of the measured routes without loss when all are down; nothing is chosen only if nothing was ever measured; AllPaths takes every route that is up |
| Ranking.OutageIgnoresLoss | engine/src/scheduler.rs:218-248 | through a total outage the choice does not depend on the loss ratios |
| PathChoice.ChoosePaths | engine/src/scheduler.rs:198-350 | the whole decision with its sort, promotion and two picking loops is the specified one |
| Duplication.DuplicatesIff | engine/src/scheduler.rs:260-309 | with two healthy routes Duplicate always duplicates and FastestPath never; Adaptive does if and only if the first two are not both at half loss or 50 ms of jitter, and two routes are within 100 ms of the quickest or carry traffic unsettled |
| Duplication.SecondPlace | engine/src/scheduler.rs:285-298 | Adaptive moves to the second place exactly the first comparable route at another endpoint, and only when the first two share one |
| PathChoice.PickRoutes | engine/src/scheduler.rs:322-334 | the loop that takes routes until enough are chosen |
| PathChoice.KeepCarriers | engine/src/scheduler.rs:335-341 | the loop that keeps unsettled carriers |
| PathChoice.Quickest | engine/src/scheduler.rs:275-281 | the least delay among the healthy routes |
| Ranking.DecisionNames | engine/src/scheduler.rs:198-350 | the decision names the chosen routes in their order |
| SchedulerLaws.FastestStands | engine/src/scheduler.rs:198-264 | with unchanged metrics the fastest path, fed back as incumbent, is chosen again, ties included |
| SchedulerLaws.OutageStands | engine/src/scheduler.rs:218-248 | a total outage arms at most one route, and fed back it is armed again, under every strategy |
| SchedulerLaws.DuplicationStands | engine/src/scheduler.rs:260-350 | with all routes settled and no shared endpoint a duplicating decision is two routes, and fed back it is the same two |
| SchedulerLaws.Shape | engine/src/scheduler.rs:213-350 | chosen routes are distinct, active and measured outside an outage; a duplicating choice has exactly two unless two settled domains are healthy, routes past the second are settled and in budget or unsettled carriers, and no healthy unsettled carrier is dropped |
| Escalation.SecondEndpoint | engine/src/scheduler.rs:285-298 | when Adaptive duplicates and a comparable route exists at another endpoint than the best, the second route is at another endpoint |
| Escalation.AsFarAsNeeded | engine/src/scheduler.rs:310-341 | a duplicating decision grows past two only while it lacks two settled domains, falls short of them only when every settled route in budget is taken, and is then followed by unsettled carriers only |
| SchedulerLaws.SettledCountIsDomains | engine/src/scheduler.rs:135-146 | the count is the number of distinct failure domains among settled routes |
| SchedulerLaws.IndependentIffDomains | engine/src/scheduler.rs:135-146 | expansion beyond two is allowed exactly when the healthy routes span two settled domains, whatever their order |
| FragmentRouter.Router.ExpireOld | engine/src/fragment_router.rs:72-90 | exactly the dead datagrams leave; their octets and pieces are accounted for |
| FragmentRouter.Router.MakeRoom | engine/src/fragment_router.rs:92-108 | a new datagram among 64 displaces an oldest one |
| FragmentRouter.Router.BeginFirst | engine/src/fragment_router.rs:111-142 | a first fragment opens a new generation, keeping pieces that came early |
| FragmentRouter.Router.LaterPiece | engine/src/fragment_router.rs:144-173 | a later fragment is routed, held, or overflows its datagram to Drop |
| FragmentRouter.Router.FinishFirst | engine/src/fragment_router.rs:175-201 | the verdict is recorded and the waiting pieces released, or discarded on Drop |
| FragmentRouterRuns.StepKeeps | engine/src/fragment_router.rs:72-201 | every call keeps pending octets equal to the held lengths and all bounds, and loses no piece uncounted |
| FragmentRouterRuns.Accounting | engine/src/fragment_router.rs:72-201 | over every run each held piece is still held, was released once, or is counted as discarded; at most 1 MiB, 64 datagrams, 64 pieces each |
| FragmentRouterRuns.TicketsDiffer | engine/src/fragment_router.rs:111-142 | tickets are never reused within 2^64 calls |
| FragmentRouterRuns.OvertakenTicket | engine/src/fragment_router.rs:72-201 | over every run a ticket whose datagram was replaced, expired or evicted at any time after its begin releases nothing and changes nothing |
| FragmentRouterRuns.VerdictLasts | engine/src/fragment_router.rs:144-201 | a verdict is what every later piece gets while the datagram lives; Drop overrides the ticket's own verdict |
| FragmentRouterRuns.OneRoute | engine/src/fragment_router.rs:111-201 | between begin and replacement, expiry or eviction all routed pieces get one route, and an overflow makes it Drop for the rest |
| FragmentRouterRuns.ReleasedTogether | engine/src/fragment_router.rs:175-201 | released pieces travel with the rest: none was routed before, and later ones get the same route |
| FragmentVerdicts.FinishRecords | engine/src/fragment_router.rs:175-201 | finish with a live ticket records the route it is given, whether or not anything waits, and releases what waits in order unless the route is Drop |
| FragmentVerdicts.FinishDecides | engine/src/fragment_router.rs:111-201 | over every run: when a datagram has lived from its begin without an overflow, finish makes the given route its verdict and releases, unless it is Drop, what begin took over and all pieces held since, in order; every later piece gets that route |
| FragmentVerdicts.EarlyPieces | engine/src/fragment_router.rs:111-142 | begin takes over exactly the pieces held before it, in order |
| FragmentVerdicts.LivesOnIff | engine/src/fragment_router.rs:72-142 | a datagram lives on through a call if and only if it is within 100 ms of its start, or five seconds of its verdict, is not displaced and does not begin again |
| FragmentVerdicts.LaterIs | engine/src/fragment_router.rs:144-173 | a later piece is routed by the verdict, held while fewer than 64 wait and a mebibyte is not exceeded, and otherwise makes its datagram Drop |
| Endpoints.Table.Observe | relay/src/endpoints.rs:42-62 | an address is refreshed or added, the table pruned and kept within bounds |
| Endpoints.Table.Apply | relay/src/endpoints.rs:64-91 | a policy message takes effect once, unless superseded; its sender is always found afterwards |
| Endpoints.Table.Targets | relay/src/endpoints.rs:117-145 | the target list of the pruned table |
| Endpoints.Table.Repair | relay/src/endpoints.rs:93-115 | the repair target of the pruned table |
| Endpoints.EvictsOldest | relay/src/endpoints.rs:51-54 | a newcomer to a full table displaces one entry, none seen longer ago |
| EndpointLaws.KnownSeen | relay/src/endpoints.rs:42-49 | hearing of an address in the table moves its time and nothing else |
| EndpointLaws.NewcomerSeen | relay/src/endpoints.rs:50-62 | hearing of a new one adds it, healthy and without a policy, and with fewer than eight alive nothing else changes |
| EndpointLaws.MessageIs | relay/src/endpoints.rs:64-91 | a message no newer than the last one of its path changes nothing; any other is recorded, makes the table selective and leaves its path at its sender alone, every other live entry staying while there is room |
| Endpoints.ApplyKeepsValid | relay/src/endpoints.rs:64-91 | a policy message leaves addresses distinct, each path with at most one entry, and at most 8 entries |
| Endpoints.TargetsAre | relay/src/endpoints.rs:117-145 | targets are all live entries before any policy, then the selected ones, or failing any exactly one entry seen no longer ago than the rest; never none while one lives |
| Endpoints.PrunedIs | relay/src/endpoints.rs:37-40 | an entry survives pruning if and only if it was seen in the last 45 seconds |
| Endpoints.TargetsAreFresh | relay/src/endpoints.rs:117-145 | no target was last seen more than 45 seconds ago |
| EndpointLaws.FallbackIsLast | relay/src/endpoints.rs:124-131 | of several entries seen last the fallback is the one latest in the table |
| Endpoints.RepairTargetIs | relay/src/endpoints.rs:93-115 | a repair goes to a healthy path seen within three seconds that is not selected if there is one, else to a healthy path seen within three seconds, else to the first target; there is one exactly when the table is selective and an entry lives |
| Endpoints.RepairsRotate | relay/src/endpoints.rs:103-115 | every path that may take a repair has its turn within as many turns as entries live |
| EndpointsRuns.EveryRun | relay/src/endpoints.rs:37-145 | after every run the table is valid, and targets are non-empty exactly when an entry lives |
| EndpointLaws.SelectiveIff | relay/src/endpoints.rs:64-77 | over every run the table is selective if and only if a policy message has come |
| EndpointsRuns.RowsAreTops | relay/src/endpoints.rs:64-91 | within the lifetime of an entry the table is each path's highest-numbered message, and nothing else |
| EndpointsRuns.Convergence | relay/src/endpoints.rs:37-91 | the same messages in any order and with any repetition end in the same table of paths |
| Dns.Query | engine/src/dns.rs:32-51 | a query is printed exactly for names whose labels are at most 63 octets and whose wire form is within the code's limit, and is that wire form |
| Dns.QuestionName | engine/src/dns.rs:203-222 | the reading loop is the specified reader, and terminates |
| Dns.QueryRoundTrip | engine/src/dns.rs:32-51 | the question read back is the hostname in lower case without empty labels, and the lower-cased hostname itself when there are none |
| Dns.LowerIff | engine/src/dns.rs:203-222 | lower case leaves no capital and makes equal exactly what differs in ASCII case alone |
| Dns.LimitKeptIff | engine/src/dns.rs:27-51 | the printer keeps the documented 255-octet limit if and only if the name is not 256 octets long |
| Dns.LimitExceeded | engine/src/dns.rs:50-50 | there is a printed name of 256 octets |
| DnsReaders.SkipName | engine/src/dns.rs:145-155 | the skipping loop is the specified one, and terminates |
| DnsReaders.ReadName | engine/src/direct_list.rs:324-358 | the reading loop with its pointers is the specified one, and terminates on every message |
| DnsReaders.ReadSkips | engine/src/direct_list.rs:324-358 | where a name can be read, skipping it leads to the same continuation |
| CompressedNames.ReadIff | engine/src/direct_list.rs:324-358 | a name is read exactly when a walk of labels and at most sixteen pointers from its offset ends in a root label and spells at most 253 octets, and what is read is what the walk spells |
| CompressedNames.SkipIff | engine/src/dns.rs:145-155 | a name is skipped exactly when labels lead from its start to a root label or a pointer, wherever the pointer leads, and what follows is the octet after that |
| DnsReaders.ReadersAgree | engine/src/dns.rs:203-222 | a question one reader accepts the other reads as the same name, exactly when it is at most 253 octets |
| DnsReaders.EveryReader | engine/src/dns.rs:32-51 | each of the three readers gets the printed name, and continues at the query's type |
| Flush.NextKeeps | engine/src/netconfig.rs:264-298 | every atomic step keeps the invariant on RUNNING, AGAIN and the threads |
| Flush.OneWorker | engine/src/netconfig.rs:264-298 | at most one thread owns the flush, in every interleaving of any number of callers |
| Flush.OutstandingIff | engine/src/netconfig.rs:264-298 | with all threads gone a request is outstanding if and only if AGAIN is still set and starting a worker failed since the last flush began |
| Flush.FlushFollows | engine/src/netconfig.rs:264-298 | wherever a request is made, a flush begins after it once the threads come to rest, if no start fails |
| Flush.FlushWithinFive | engine/src/netconfig.rs:264-298 | with calls still arriving, while a request waits the owner and the threads that take a clear RUNNING make at most five steps before a flush begins |
| Flush.SomeoneAdvances | engine/src/netconfig.rs:287-292 | one of those steps is always possible, at most one load of AGAIN away |
| Flush.RankFalls | engine/src/netconfig.rs:273-294 | every step but a new call lowers a rank |
| Flush.Drains | engine/src/netconfig.rs:273-294 | without new calls every schedule ends, within a bound set by its first state, and only with all threads gone |
| Flush.FailureStrands | engine/src/netconfig.rs:295-297 | a failed start leaves its request outstanding with nothing running |
| Flush.FailureHarmless | engine/src/netconfig.rs:295-297 | a failed start can also leave nothing outstanding, when another worker had already served the caller |
| Civil.YearIs | engine/src/log.rs:345-349 | the year and day of year computed from a day of an era are the right ones, for every day of the 400 years |
| Civil.AlwaysProper | engine/src/log.rs:338-358 | every day number gives a month and a day of that month |
| Civil.Successor | engine/src/log.rs:338-358 | the next day number gives the next calendar day, negative numbers included |
| Civil.NumberOfDate | engine/src/log.rs:338-358 | counting the days of the resulting date gives the day number back |
| Civil.DateOfNumber | engine/src/log.rs:338-358 | every proper date is the one its day count gives |

## Left out

- The Windows and network interfaces, session management, cryptography, the foreign VPN engines, the
  user interface and configuration: calls into code that is not part of this model.
- The text of direct-list entries and domain names (trimming, dotted quads, `parse_domain`,
  `matches_name`): an entry is a parsed address and prefix, or is malformed.
- The records of a DNS answer after the names (`read_answer` in both files), the classification of a
  reply (`verdict`) and the fixed order of resolvers (`resolver_order`).
- `fragmentation_needed`, which copies the head of a packet into an ICMP message with two checksums of
  the kind proved here, and `FragmentTrail`, a bounded list of recent verdicts by key.
- `group_size_for`, `relay_tun_mtu`, `own_stack` and `tcp_mss`, each one arithmetic expression over
  values modelled here; the short offer and accept messages; the counters' accessors.
- The writing of log lines: `Sink::emit`, repeated lines and the layout of a timestamp.
- IEEE rounding, infinities and NaN: scores, averages and loss shares are real numbers, and an
  unmeasured or inactive route is left out of the ranking instead of scoring infinity.
- Weak memory ordering: the two concurrent protocols take sequentially consistent atomic steps.
- The widths of counters that no run can exhaust (samples, discard counts) and the 64-bit limits of a
  day number.
- Splitting a fragment whose offset and payload run past the 65535 octets a datagram can have.
- What `String::from_utf8_lossy` makes of malformed UTF-8: it is a parameter of the name readers.
- `DirectRoutes` leaves the names in `learned` and the protected addresses out: whether a learned
  address still matches is a free choice of each step. That only adds behaviours to the for-all
  results, and the two runs that lose a row need no more than one name all their lists match.
- FragmentRouterRuns.OneRoute: assumes a ticket is used once, which its ownership enforces, and speaks
  of pieces after `begin`; a Drop recorded by an overflow before `begin` does not survive it
  (engine/src/fragment_router.rs:116-137).
- DirectRoutes.TakeKeeps: a route is added in one step, also where Windows is asked to delete an
  existing row and to create it again (engine/src/netconfig.rs:777-778); the three ways that can end are
  all there.
- FecRetries.PendingBrings: counts every repair accepted meanwhile as one that may go in front, though
  one that resolves at once does not.
- EndpointsRuns.Convergence: needs that no entry is evicted, by at most eight paths with policy
  messages alone or at most eight addresses in all, and that no address serves two paths.
