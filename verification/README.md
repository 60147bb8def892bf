# A verified model of netmon

netmon watches the traffic of one network interface, finds out which thread of which process each
frame belongs to, keeps byte counters and 300 seconds of history per thread, per connection and for
the interface, and can cut a process off by nftables rules. This project models that pipeline in
Dafny and proves what its parts are for:

- **Counting** (`TrafficLog`, `AggregatorModel`, `AggregatorRuns`, `AggregatorTheorems`,
  `AggregatorEvictions`, `AggregatorRates`, `AggregatorLimits`, `AggregatorUpkeep`, `Attribution`,
  `Aggregator`). The aggregator's loop is modelled twice: as it runs, with counters and 300-slot
  arrays updated in place over a table of rows that share no memory, and as functions on a value.
  Every method of the first is tied to a function of the second. Beside a run stands an unbounded log
  of every record, every closed second and every removal; what a counter ought to show is read off
  that log by position alone, without reference to the counters. What a pass does besides counting is
  stated in plain times, names and fields.
- **Publishing** (`Publication`, `Conversations`, `PublishedRows`, `Chart`). What the GUI is given is a faithful view
  of that state, and what a published connection says of the conversation it names.
- **Listing sockets** (`Words`, `Text`, `Netlink`, `NetlinkDumps`, `ProcFallback`,
  `DecoderAgreement`, `Resolver`, `ResolverSources`). The netlink dump decoder and the reader of the `/proc/net` tables
  are proved against what the kernel writes, and against each other; the resolver's cache joins the
  result with the holders of the sockets into two views that agree.
- **Blocking** (`RuleText`, `RuleListing`, `RuleMeaning`, `RuleChain`, `RuleRuns`, `RuleStale`,
  `RuleForeign`, `RuleNames`, `Controller`). A map of remembered handles beside a chain of rules that
  the program reaches only by nft commands, each of which may be refused, or take effect and fail to
  say so. What a rule drops is read off its words. Rules are found again by searching the lines of a
  listing for the text of their comments, so the proofs go down to the characters. A rule counts as a
  process's when that search finds it by the process's marker; for a safe name these are exactly the
  rules made for it.
- **Parsing frames** (`Capture`). The parser accepts exactly the frames of one grammar.

`Net` holds what the parts share. A clock reading, the answers of the resolver while the aggregator
runs, the liveness of a process and the outcome of every nft command are inputs of the model, and
nothing is assumed of them; in particular time may pass, stand still or (through saturating
subtraction) appear to run backwards between any two readings.

## Where the code falls short of what one would expect

Each of these is a lemma, with the exact condition or with a run or input on which it happens, so
the model follows the code and not the documentation.

- Clearing all rules on exit flushes the whole output chain. `README.md:33-34` of the repository
  says that existing rules are left untouched. On every run the rules that are not ours stay exactly
  unless a flush took effect while there were any (`RuleForeign.ForeignRulesSurvive`), as long as no
  name makes a rule that is found as another or not at all.
- A flush that takes effect but reports failure leaves every remembered process stale, until a later
  flush is reported or the process is blocked or unblocked. On every run what is remembered is exactly
  the live rules if and only if no process is stale (`RuleStale.ExactUnlessStale`). With nft in order,
  unblocking a process fails if and only if it is stale, and a second attempt succeeds
  (`RuleStale.UnblockFailsIfStale`). `RuleNames.StaleReached` is such a run.
- The name of a process goes into the comment of its rules as it is, and the listing is searched line
  by line. A name is safe to block if and only if the last line of that comment bears the process's
  own marker and no other's, and no earlier line reads as a handle (`RuleNames.NameOkIsExact`); a name
  of one line only has to spell out no other process's marker (`RuleListing.OneLineName`). Otherwise
  the rule is lost when another process is unblocked (`RuleNames.NamesMatter`), or is never found, so
  that unblocking reports success and leaves it (`RuleNames.UnfoundRuleStays`, with a name in
  `RuleNames.BrokenName`), or another rule is taken for it and deleted (`RuleNames.OtherRuleTaken`,
  with a name in `RuleNames.MisleadingName`).
- The bytes that a connection is shown to have received are wrong exactly when both of its ends
  count as local, or both as remote, its two keys are both present, and the reverse one holds
  outbound bytes (`Conversations.PublishedConnection`). They are right on every run if and only if
  exactly one end is local; otherwise one record each way suffices
  (`Conversations.ReceivedShownAlways`).
- The GUI starts the capture without local addresses (`crates/gui/src/main.rs:264`). On every such
  run the interface, the threads and the connection rows have counted nothing as received; a
  published connection shows received bytes if and only if it has no row of its own and the row of
  its swapped ends has sent some (`Conversations.NoLocalAddresses`), which happens when only the far
  end was heard (`Conversations.FarEndHeard`).
- Netlink and `/proc/net` are asked in different orders, so they disagree about an inode that is
  given for an IPv4 UDP and an IPv6 TCP socket (`DecoderAgreement.DecodersAgree`).
- The owner map and the connection list name different users for a socket whose holder was not
  found, unless it belongs to a nameless user 0 (`Resolver.OwnersAgree`).
- The bandwidth of the interface and both averages of a thread add without a check. They are exact if
  and only if the bytes of the seconds they cover fit 64 bits (`AggregatorRates.RatesAreExact`,
  `AggregatorRates.PeakIsMaximum`). Up to 429,496,729 records between two rotations they do
  (`AggregatorRates.CalmRatesAreExact`), and one more of the largest size in each of ten seconds makes
  the ten-second average of their thread wrong (`AggregatorLimits.TenSecondBoundIsTight`). There is a
  run that publishes a current bandwidth above the peak (`AggregatorLimits.CurrentAbovePeak`).
- Counters stop at the top row by row, so the sum of what live and evicted threads showed falls short
  of all bytes recorded if and only if some thread carried more than 64 bits count in one life
  (`AggregatorEvictions.TotalsAddUp`).
- A netlink error message with number 0 is still an error (`NetlinkDumps.ErrorsEndDecoding`), and a
  message length between 1 and 15 is taken for an empty message, after which the next header is read
  from inside this one (`NetlinkDumps.ShortLengthsAreTaken`).

Besides, `docs/aggregator.md` and `docs/audit_lessons_learned.md` speak of 40 samples and an average
over all of them; the code keeps 300 and averages over two and ten.

## Model

| member | source | states |
|---|---|---|
| TrafficLog.Conservation | crates/aggregator/src/lib.rs:553-601 | In every window of the log, each byte is claimed exactly once: by the row of a live thread or by the retired ones, also when a thread was evicted and came back. |
| TrafficLog.ChildrenWithinParent | crates/aggregator/src/lib.rs:603-645 | In every window, the connections of a thread claim no more than the thread, provided that no thread is dropped without its connections. |
| TrafficLog.TotalSplits | crates/aggregator/src/lib.rs:198-207 | For every number of slots, a total is the running interval, the slots, and what lies before them. |
| TrafficLog.AppendStart | crates/aggregator/src/lib.rs:520-550 | A tick closes the running interval and moves each older one back by one place; no other event moves a boundary. |
| AggregatorRuns.TraceState | crates/aggregator/src/lib.rs:387-436 | Keeping the log changes nothing of what a run does. |
| AggregatorRuns.MeterFollows | crates/aggregator/src/lib.rs:198-207 | A counter triple that shows the log, and follows one event by saturating adds or by the shift, shows the longer log: total, running second and all 300 slots. |
| AggregatorRuns.RecordKeepsInv | crates/aggregator/src/lib.rs:553-601 | Processing any record keeps the invariant: all meters show the log, keys match the stored identity, every connection has a live thread. |
| AggregatorRuns.MarkKeepsInv | crates/aggregator/src/lib.rs:485-499 | Marking exited threads keeps the invariant. |
| AggregatorRuns.RemovalsKeepInv | crates/aggregator/src/lib.rs:502-504 | Evicting and then at once pruning keeps the invariant, whatever the clock says of each entry. |
| AggregatorRuns.RotationKeepsInv | crates/aggregator/src/lib.rs:520-550 | A rotation, due or not, keeps the invariant for threads, connections and interface together. |
| AggregatorRuns.RunKeepsInv | crates/aggregator/src/lib.rs:387-436 | Every run from the start keeps the invariant. |
| AggregatorTheorems.WindowsRefineLog | crates/aggregator/src/lib.rs:198-207 | On every run, slot i of the interface and of each live thread is the saturated sum of the i-th most recent completed interval, and the total is the saturated sum of running second, 300 slots and what was shifted out. |
| AggregatorTheorems.LogCounts | crates/aggregator/src/lib.rs:440-482 | The log of a run counts exactly the bytes of the records handed to it. |
| AggregatorTheorems.BytesConserved | crates/aggregator/src/lib.rs:585-599 | On every run, in total, in the running second and in each slot, the interface shows the sum over live threads plus what evicted threads had carried then, up to saturation. |
| AggregatorEvictions.DropRetires | crates/aggregator/src/lib.rs:502-504 | In every window, dropping threads retires exactly the bytes that their rows had counted there. |
| AggregatorEvictions.EvictedAgrees | crates/aggregator/src/lib.rs:502-504 | On every run, for total, running second and each slot, the retired bytes of the log are what all evicted threads showed when they were evicted, moved back by every rotation since: up to saturation, never less than shown, and equal if and only if none of them had carried more than 2^64-1 in that window. |
| AggregatorEvictions.ReadingsAddUp | crates/aggregator/src/lib.rs:533-599 | On every run each reading of the interface (total, running second, slot i) is the saturated count of the log and the saturated sum of what live threads show and evicted threads showed; the plain sum never exceeds the count, and equals it if and only if no thread, live or evicted, carried more than 2^64-1 in the window in one life, in particular whenever the count is at most 2^64-1. |
| AggregatorEvictions.TotalsAddUp | crates/aggregator/src/lib.rs:387-436 | The same for the total, against the sum of all record bytes of the direction handed to the run. |
| AggregatorTheorems.ConnectionsWithinThread | crates/aggregator/src/lib.rs:683-696 | On every run each connection's thread is live, and the connections of a thread together show no more than the thread; without saturation, as plain sums. |
| AggregatorRates.AveragesExact | crates/aggregator/src/lib.rs:335-341 | For any history, each average is that of its two or ten samples if and only if they add up to at most 2^64-1. |
| AggregatorRates.RatesAreExact | crates/aggregator/src/lib.rs:285-292 | On every run: running second and slots of the interface and of every thread are exact if and only if each of these seconds carried at most 2^64-1 bytes; those of a thread together with its two averages if and only if the last ten seconds did so together besides; and each total if and only if it is at most that. |
| AggregatorRates.CalmRatesAreExact | crates/aggregator/src/lib.rs:285-292 | In particular running second and slots of the interface, and those and both averages of every thread (not the totals, which are not bounded by it), are exact on every run with at most 429,496,729 records between rotations. |
| AggregatorLimits.TenSecondBoundIsTight | crates/aggregator/src/lib.rs:289-292 | Ten seconds of any n > 0 largest records each, all of one thread: that thread is live at the end, and its ten-second average is right if and only if n is at most 429,496,729. |
| AggregatorRates.RunKeepsPeak | crates/aggregator/src/lib.rs:544-547 | On every run the peak is the largest value that the bandwidth sum ever had, wrapped as it may be, and is one of them. |
| AggregatorRates.PeakIsMaximum | crates/aggregator/src/lib.rs:803-804 | On every run the peak is the largest number of bytes of any completed interval, and the current bandwidth that of the last one, if and only if every interval carried at most 2^64-1 bytes; and the current bandwidth is within the peak if and only if the last interval did or the peak stands at the top. |
| AggregatorRates.CalmPeak | crates/aggregator/src/lib.rs:544-547 | In particular both hold on every run with at most 429,496,729 records between rotations. |
| AggregatorLimits.CurrentAbovePeak | crates/aggregator/src/lib.rs:544-547 | A run of two passes whose published current bandwidth exceeds its peak. |
| Aggregator.ShiftIn | crates/aggregator/src/lib.rs:198-207 | The reverse index loop leaves the array as newest sample followed by the first 299 old ones. |
| Attribution.MatchesExactly | crates/resolver/src/lib.rs:138-150 | For all sockets and flows: a socket matches if and only if the flow has its protocol and all four fields of its two ends, from local to remote or back. |
| Attribution.OneFlowOnePair | crates/aggregator/src/lib.rs:652-667 | Sockets of different protocols or different pairs of ends never match one flow. |
| Attribution.OwnersInTurn | crates/aggregator/src/lib.rs:564-574 | The owner of a record is the resolver's answer; without one, every field of the first cached connection of the flow; without one, process 0 with unknown names. |
| Attribution.RecordGoesToOwner | crates/aggregator/src/lib.rs:576-645 | A record adds or changes just its owner's thread row, which takes the owner's identity, and just the connection whose local and remote ends are as its direction says. |
| Aggregator.LookupProcessFromConnections | crates/aggregator/src/lib.rs:647-681 | Finds nothing if and only if the flow is neither way that of a cached connection, compared field by field; else every field of the first one it is. |
| Aggregator.ThreadStats.Count | crates/aggregator/src/lib.rs:578-598 | Counts bytes of one direction in place; the other direction and both histories stay. |
| Aggregator.ThreadStats.RotateSecond | crates/aggregator/src/lib.rs:198-207 | Shifts both arrays in place and empties both running seconds; totals, identity and last-seen stay. |
| Aggregator.ThreadTable.Count | crates/aggregator/src/lib.rs:576-583 | Finds or creates the row of the owner and counts in it alone. |
| Aggregator.ThreadTable.RotateAll | crates/aggregator/src/lib.rs:533-535 | Rotates every row exactly once, in whatever order the map is walked, though each is updated in place. |
| Aggregator.ThreadTable.MarkExited | crates/aggregator/src/lib.rs:485-499 | Marks exactly the rows whose process no longer resolves and whose name is not yet marked; never process 0. |
| Aggregator.ThreadTable.EvictStale | crates/aggregator/src/lib.rs:502-504 | Keeps exactly the rows whose clock reading is at most 30,000,000,000 ns after they were last seen. |
| Aggregator.Aggregator.UpdateConnectionStats | crates/aggregator/src/lib.rs:603-645 | Files a record under its local and remote end as its direction says, in one counter, and touches no other connection. |
| Aggregator.Aggregator.ProcessRecord | crates/aggregator/src/lib.rs:553-601 | The whole new state after one record: owner by resolver, else by cache, else unknown; one thread, one connection and the interface change. |
| Aggregator.Aggregator.DrainFlowChannel | crates/aggregator/src/lib.rs:440-482 | The new state is that of processing every waiting record in order. |
| Aggregator.Aggregator.MarkExitedThreads | crates/aggregator/src/lib.rs:485-499 | The whole new state after marking: only names of threads change. |
| Aggregator.Aggregator.EvictStaleThreads | crates/aggregator/src/lib.rs:502-504 | The whole new state after eviction: only the thread map shrinks. |
| Aggregator.Aggregator.PruneConnectionStats | crates/aggregator/src/lib.rs:683-696 | Keeps exactly the connections whose clock reading is at most 30,000,000,000 ns after they were last seen and whose thread is still there. |
| Aggregator.Aggregator.RefreshConnectionCacheIfDue | crates/aggregator/src/lib.rs:507-517 | Replaces the cache exactly when 800 ms have passed since the last scan. |
| Aggregator.Aggregator.RotateInterfaceSecond | crates/aggregator/src/lib.rs:699-713 | Both interface meters are rotated in place. |
| Aggregator.Aggregator.RotateHistoriesIfDue | crates/aggregator/src/lib.rs:520-550 | Rotates everything or nothing, as one second has passed or not, says which, and raises the peak. |
| Aggregator.Aggregator.Iterate | crates/aggregator/src/lib.rs:387-433 | One pass in the order of the loop, tied to the value model, with rows and interface published from its final state. |
| Aggregator.RunAggregatorLoop | crates/aggregator/src/lib.rs:348-436 | After any list of passes the fields hold what the value model's run says, so that every result on runs is one on this loop. |
| AggregatorUpkeep.PassKeepsRecent | crates/aggregator/src/lib.rs:502-504 | After a pass a thread is there if and only if it was when the records were counted and its clock reading is at most 30,000,000,000 ns after it was last seen; a connection, if that holds of it and its thread is there. |
| AggregatorUpkeep.ThreadsAreRecent | crates/aggregator/src/lib.rs:387-436 | On every run a thread has a row if and only if its last record was, at no pass since, more than 30,000,000,000 ns before the clock reading; the row was last seen when that record was. |
| AggregatorUpkeep.ConnectionsAreRecent | crates/aggregator/src/lib.rs:683-696 | The same of connections, as long as the thread was there after each of these passes. |
| AggregatorUpkeep.PassMarksDead | crates/aggregator/src/lib.rs:485-499 | After a pass the name of a live row ends in " [exited]" if its process is dead and not 0, and got that once; other names, and all other fields, are as before. |
| AggregatorUpkeep.CacheIsNewest | crates/aggregator/src/lib.rs:507-517 | On every run the cached connections are the newest scan, each taken when 800,000,000 ns had passed since the one before. |
| AggregatorUpkeep.PassClosesSeconds | crates/aggregator/src/lib.rs:520-550 | A pass puts the running second, its own records included, into slot 0 and shifts the others if and only if 1,000,000,000 ns have passed since it was opened; else it adds its records to it. |
| AggregatorUpkeep.SecondsAreOnTime | crates/aggregator/src/lib.rs:520-550 | On every run the running second was opened when the last due rotation was stamped. |
| Publication.ConnectionsByThread | crates/aggregator/src/lib.rs:735-777 | Groups the cache by thread: for every thread exactly its entries, in cache order. |
| Publication.BuildRows | crates/aggregator/src/lib.rs:779-791 | One row for each live thread and no other, each with its own connections, in whatever order the map is walked. |
| Publication.SortRows | crates/aggregator/src/lib.rs:793-794 | Strictly increasing by process and thread, with the same rows. |
| Publication.FaithfulRowsAreUnique | crates/aggregator/src/lib.rs:793-798 | There is only one faithful list of rows for a state, so no order of hashing shows in what is published. |
| Publication.PublishSnapshots | crates/aggregator/src/lib.rs:716-808 | The published rows are the faithful list of the state and the interface record is the state's. |
| PublishedRows.PublishedRowsAreTrue | crates/aggregator/src/lib.rs:735-798 | On every run of classified records, the published rows increase by process, then thread, one for each live thread; each has its thread's identity, last-seen, blocked flag and saturated totals and slots of the log; its entries name exactly the thread's cached connections, field by field and in order, each with sent bytes exact up to saturation, and received bytes exact if and only if the condition of `Conversations.PublishedConnection` holds. |
| PublishedRows.PublishedInterfaceIsTrue | crates/aggregator/src/lib.rs:800-807 | On every run every field of the interface record is what the log says: totals, slots, the last interval's bytes and the largest sum ever closed; both bandwidths are exact if and only if all intervals fit 64 bits, and the current one is within the peak if and only if the last one does or the peak stands at the top. |
| Conversations.PublishedConnection | crates/aggregator/src/lib.rs:735-760 | What is published as sent is always what was sent since the entry was created; what is published as received is what was received if and only if exactly one end is local or one of the two keys is absent or the reverse key holds no outbound bytes. |
| Conversations.ConnectionsAreExact | crates/aggregator/src/lib.rs:603-645 | On every run of classified records, the same for every connection of the cache. |
| Conversations.RunKeepsWitness | crates/aggregator/src/lib.rs:603-645 | On every run each connection entry was created by a record that it still counts, and the log's directions are the classifier's. |
| Conversations.CarriedInOneRow | crates/capture/src/lib.rs:347-356 | All bytes from one end to another are counted under one key, in one direction. |
| Conversations.ReceivedShownAlways | crates/aggregator/src/lib.rs:735-760 | For all local addresses, a connection is shown on every run to have received what it received if and only if exactly one of its ends is local. |
| Conversations.OneKeyOnly | crates/aggregator/src/lib.rs:603-645 | On every run, when one end alone is local, the key that starts with the other end is never present. |
| Conversations.NoLocalAddresses | crates/gui/src/main.rs:262-268 | Started with an empty list of local addresses, as the GUI does, on every run total, running second and slots of the interface and of every thread, and every connection row, have received nothing; a published connection shows received bytes if and only if its own key is absent and the reverse one holds outbound bytes. |
| Conversations.MirrorSymmetry | crates/resolver/src/lib.rs:138-150 | A flow and its mirror match the same sockets; they classify to opposite directions if and only if exactly one end is local, and then have one key. |
| Conversations.AnswerCountsInOneRow | crates/aggregator/src/lib.rs:553-645 | In any state, a record and the one with its ends swapped, resolved on one snapshot and one walk of the resolver's table, have the same owner, by resolver, cache or default; they are counted in one row if and only if exactly one end is local or both are the same, on opposite counters if and only if exactly one is local; after both, each counter has grown by just its records and every other row is as before. |
| Conversations.FarEndHeard | crates/gui/src/main.rs:262-268 | Without local addresses, a run on which only the far end was heard shows its byte as received. |
| Chart.AggregateHistory | crates/gui/src/main.rs:1180-1188 | The chart's arrays hold for each second the saturated sum over all rows. |
| Chart.RowsSumToSlots | crates/gui/src/main.rs:1180-1188 | For published rows that sum is the sum over live threads, each once. |
| Chart.ChartWithinInterface | crates/aggregator/src/lib.rs:533-542 | On every run, interface slot i is the chart's sum plus what evicted threads carried in that second, up to saturation; the chart never exceeds it. |
| Capture.ParsePacket | crates/capture/src/lib.rs:298-356 | Accepts a byte string if and only if it is a serialised TCP or UDP frame, and then returns that frame's key and length, as received if and only if its destination is local and its source is not. |
| Capture.SerializeParses | crates/capture/src/lib.rs:367-464 | For any key, any header length of 5 to 15 words with any options, with or without one tag, and any payload, parsing the frame returns the key. |
| Capture.ParsedIsFrame | crates/capture/src/lib.rs:367-464 | Every accepted byte string is the serialisation of a frame, byte for byte. |
| Capture.AcceptsExactly | crates/capture/src/lib.rs:298-344 | Both together: the accepted strings are the serialised frames, and the key does not depend on how they are read as one. |
| Capture.OppositeDirections | crates/capture/src/lib.rs:347-356 | The two directions of a conversation classify differently if and only if exactly one end is local. |
| Words.ClearLowBits | crates/resolver/src/netlink.rs:417-420 | On 64-bit numbers the mask rounds down to a multiple of four. |
| Words.NetworkOrder | crates/resolver/src/netlink.rs:386-395 | Reading a word in network order and writing it in network order gives the bytes as they lie in memory. |
| Netlink.AlignIsLeast | crates/resolver/src/netlink.rs:417-420 | The bit trick gives the least multiple of four that is no smaller. |
| Netlink.FillIpv6FromBeWords | crates/resolver/src/netlink.rs:386-395 | Fills sixteen bytes with the four words in network order. |
| Netlink.ReadInetDiagMessage | crates/resolver/src/netlink.rs:343-383 | Reads one socket message, its addresses filled in word by word, or fails as the record function says. |
| Netlink.ReadMessage | crates/resolver/src/netlink.rs:294-326 | One turn of the loop: what decoding does from an offset on is what this message decides, or what decoding does from the next offset on, which is greater. |
| Netlink.ParseResponseMessages | crates/resolver/src/netlink.rs:288-330 | Terminates on every byte string, reads only inside it, and its result and table are those of the recursive reading of the remaining bytes. |
| Netlink.ParseKeepsFiling | crates/resolver/src/netlink.rs:319-322 | Whatever the bytes, every entry is filed under its own inode. |
| Netlink.QueryFamilyProtocol | crates/resolver/src/netlink.rs:208-244 | Result, table and number of datagrams taken, for any datagrams, also when they run out or one is empty. |
| Netlink.QuerySockets | crates/resolver/src/netlink.rs:160-205 | The four dumps in their order, over one socket and into one table: each reads on from the datagram where the one before it stopped; the first failure discards the table. |
| Netlink.QueryAllFiles | crates/resolver/src/netlink.rs:160-205 | Whatever the kernel answers, the table is filed by inode. |
| NetlinkDumps.ParseEncoded | crates/resolver/src/netlink.rs:288-330 | For every list of messages of any kind, written with header, payload and padding, and fewer than 16 stray bytes after them, decoding does what the list means, errors included. |
| NetlinkDumps.BoundariesDoNotMatter | crates/resolver/src/netlink.rs:208-244 | However the messages are cut into datagrams, result and table are determined by the list of messages alone. |
| NetlinkDumps.StopsAtFirstDecision | crates/resolver/src/netlink.rs:232-241 | The receive loop takes exactly the datagrams up to the one with the first done, error or malformed message. |
| NetlinkDumps.ErrorsEndDecoding | crates/resolver/src/netlink.rs:316-340 | An error message at the front that holds the number n ends the decoding with the error -n, 0 included; the lowest number stays itself. |
| NetlinkDumps.BadSocketsFail | crates/resolver/src/netlink.rs:343-366 | A socket message of less than 72 bytes, or of another family than 2 and 10, ends the decoding as malformed. |
| NetlinkDumps.BadLengthsFail | crates/resolver/src/netlink.rs:300-306 | So does a length of zero or beyond the datagram. |
| NetlinkDumps.OtherMessagesPass | crates/resolver/src/netlink.rs:311-326 | Messages of other types change nothing. |
| NetlinkDumps.ShortLengthsAreTaken | crates/resolver/src/netlink.rs:298-309 | Exactly what a length of 1 to 15 does for each message type: done, malformed, or an empty message whose successor is read 4 to 16 bytes on. |
| NetlinkDumps.DiagReadsBack | crates/resolver/src/netlink.rs:343-383 | A socket message is read back as that socket, IPv4 or IPv6, whatever stands in the fields not looked at. |
| NetlinkDumps.SocketsGoOn | crates/resolver/src/netlink.rs:288-330 | Socket messages without a done message do not end a dump, and leave the in-order table of what came. |
| NetlinkDumps.DumpIsDecoded | crates/resolver/src/netlink.rs:288-395 | Any dump of any sockets with any cuts, ended by a done message, succeeds with the in-order table in which the later of two sockets with one inode stands. |
| NetlinkDumps.BuildInetDiagRequest | crates/resolver/src/netlink.rs:247-285 | The request is one well-formed message of 72 bytes, whose length field says so, asking for all states and no particular endpoint. |
| ProcFallback.ParseProcSocketAddr | crates/resolver/src/proc_fallback.rs:120-159 | For every text, the endpoint it means, or nothing, as the parts around the first colons, their lengths and their digits say. |
| ProcFallback.FillIpv6 | crates/resolver/src/proc_fallback.rs:139-153 | Fills sixteen bytes from four groups of eight digits, or fails with the first group that is no word. |
| ProcFallback.ReadProcFile | crates/resolver/src/proc_fallback.rs:52-117 | The table after all rows below the heading, or the first failure. |
| ProcFallback.ReadProcNet | crates/resolver/src/proc_fallback.rs:40-49 | The four files in their order into one table, or the first failure. |
| ProcFallback.BadRowFails | crates/resolver/src/proc_fallback.rs:64-114 | One row below the heading that is none fails the whole file. |
| ProcFallback.BadColumns | crates/resolver/src/proc_fallback.rs:76-110 | A row is none if and only if it has fewer than ten columns, or its second or third is no endpoint, or its tenth no number of 64 bits. |
| ProcFallback.BadEndpoints | crates/resolver/src/proc_fallback.rs:120-159 | A text without a colon, with an address of another length than 8 or 32 letters, or with a port that is no number of 16 bits is no endpoint. |
| ProcFallback.MissingFileFails | crates/resolver/src/proc_fallback.rs:40-49 | If any of the four files cannot be opened, the reading fails. |
| ProcFallback.ProcNetFiles | crates/resolver/src/proc_fallback.rs:40-49 | Whatever the files hold, the table is filed by inode. |
| Text.SplitLine | crates/resolver/src/proc_fallback.rs:64-75 | Splitting a row at blanks recovers its columns, however wide the blanks. |
| Text.HexParses | crates/resolver/src/proc_fallback.rs:120-133 | A number printed with a fixed count of hexadecimal digits is parsed back. |
| Text.DecimalParses | crates/controller/src/lib.rs:427-432 | A number printed in decimal is parsed back within its type. |
| DecoderAgreement.EndpointReads | crates/resolver/src/proc_fallback.rs:120-159 | The kernel's text of any IPv4 or IPv6 endpoint is read as that endpoint. |
| DecoderAgreement.EndpointsAgree | crates/resolver/src/netlink.rs:369-383 | The text of an endpoint and its raw words are decoded to the same address and port. |
| DecoderAgreement.StatesAgree | crates/resolver/src/netlink.rs:399-414 | Both tables give every byte the same TCP label, the kernel's eleven in their order, and the undefined ones "UNKNOWN". |
| DecoderAgreement.RowReads | crates/resolver/src/proc_fallback.rs:64-114 | A printed row of any socket, with any blanks and any unread columns, is read as that socket, without user and with TCP states only. |
| DecoderAgreement.FileReads | crates/resolver/src/proc_fallback.rs:52-117 | A printed table adds exactly the table of its sockets to what was there. |
| DecoderAgreement.ProcNetReads | crates/resolver/src/proc_fallback.rs:40-49 | Four printed tables are read as the merged table of their sockets, TCP before UDP. |
| NetlinkDumps.DumpIsTaken | crates/resolver/src/netlink.rs:208-244 | A dump whose done message is in its last datagram is read to that datagram and no further, whatever follows on the socket. |
| DecoderAgreement.NetlinkReads | crates/resolver/src/netlink.rs:160-205 | Four such dumps one after another, cut anywhere, are read as the merged table of their sockets, IPv4 before IPv6. |
| DecoderAgreement.MissingDumpFails | crates/resolver/src/netlink.rs:160-205 | If the socket falls silent after none, one, two or three of the dumps, the query fails. |
| DecoderAgreement.PathsAgree | crates/resolver/src/proc_fallback.rs:40-49 | For all sockets the two merged tables agree, up to user and UDP state, if and only if each inode shared by an IPv4 UDP and an IPv6 TCP socket is also that of an IPv6 UDP socket. |
| DecoderAgreement.DecodersAgree | crates/resolver/src/lib.rs:88-104 | End to end: for all sockets, any cuts into datagrams and any spacing of the rows, both paths succeed, and agree up to user and UDP state if and only if that condition holds. |
| Resolver.BuildInodeProcessMap | crates/resolver/src/lib.rs:231-272 | The owner map has exactly the socket table's inodes, each with every field of its holder and the name its user has, or else "[unknown]" and 0 throughout. |
| Resolver.BuildConnections | crates/resolver/src/lib.rs:275-309 | The list has exactly one row for each socket, with the socket's fields, every field of its holder and the name its user has, or else unknown names with the socket's own user. |
| Resolver.ResolverCache.Refresh | crates/resolver/src/lib.rs:88-114 | Succeeds if and only if netlink or the text tables can be read. If netlink answers, the table is netlink's; else, if the text can be read, it is that of the text; the three views are then views of it, and otherwise unchanged. |
| ResolverSources.RefreshByNetlink | crates/resolver/src/lib.rs:88-104 | End to end: when netlink answers with valid dumps, a refresh leaves exactly the kernel's sockets in the cache, whatever the text tables hold. |
| ResolverSources.RefreshByText | crates/resolver/src/lib.rs:88-104 | End to end: when netlink fails in any way and the text tables are printed, a refresh leaves the kernel's sockets in the cache, without users and UDP states. |
| Resolver.ResolverCache.RefreshIfNeeded | crates/resolver/src/lib.rs:122-127 | Within one second of the last refresh, or when reading fails, nothing changes; otherwise the views are those of the system just read, with the time of the refresh. It fails exactly when it was due and reading failed. |
| Resolver.OwnerOnWalk | crates/resolver/src/lib.rs:130-158 | Any walk of a table finds an owner if and only if the flow is some socket's, and then the holder of such a one. |
| Resolver.MirrorOwner | crates/resolver/src/lib.rs:138-150 | On one table and one walk of it, a flow and its mirror have the same owner. |
| Resolver.ResolverCache.ResolveFlowOwner | crates/resolver/src/lib.rs:130-158 | Refreshes as above and changes nothing else; finds an owner if and only if the flow, compared field by field, is either way that of some socket of the table held afterwards, and then every field of the holder of such a socket: the first in whatever order the table is walked. |
| Resolver.ResolverCache.ListConnections | crates/resolver/src/lib.rs:161-164 | Refreshes as above, changes nothing else, and returns the list held afterwards. |
| Resolver.ResolverCache.ProcessByPid | crates/resolver/src/lib.rs:167-173 | Refreshes as above and changes nothing else; finds a process if and only if it holds one of the sockets held afterwards. |
| Resolver.LookupsAgree | crates/aggregator/src/lib.rs:647-681 | On one snapshot, the connection list yields an owner if and only if some socket of the table matches, and then that of a matching socket. |
| Resolver.OwnersAgree | crates/resolver/src/lib.rs:231-309 | For one socket both views name the same thread and names; they agree entirely if and only if the holder was found or the socket is a nameless user 0's. |
| Resolver.SingleMatchIsUnambiguous | crates/resolver/src/lib.rs:138-150 | When one socket matches, every answer of the table and the answer of the list name the same thread, whatever order the table is searched in. |
| Resolver.PidsAgree | crates/resolver/src/lib.rs:167-173 | A process appears in the list if and only if it appears in the owner map. |
| RuleText.BuildBlockRuleset | crates/controller/src/lib.rs:243-262 | The text built up is the script of the port rules. |
| RuleText.SafeAt | crates/controller/src/lib.rs:96 | Quotes in the name become underscores; every other letter is kept. |
| RuleMeaning.PortBodyMeans | crates/controller/src/lib.rs:243-262 | Read word by word, the rule for a transport and ports drops packets from exactly these source ports, in order, of that transport. |
| RuleMeaning.UserBodyMeans | crates/controller/src/lib.rs:99-108 | The rule for a user drops exactly that user's packets. |
| RuleMeaning.PortsBlockedExactly | crates/controller/src/lib.rs:243-262 | The port rules drop packets from a source port of a transport if and only if it was given for that transport, and no user's. |
| RuleMeaning.StatementWords | crates/controller/src/lib.rs:99-108 | Every statement of a script adds its rule to the output chain of the inet filter table. |
| RuleMeaning.BlockBlocksExactly | crates/controller/src/lib.rs:88-130 | A blocking that succeeds has put behind what was there rules that drop packets from a source port of a transport if and only if the process had it, and its user's if and only if it had no port at all. |
| RuleText.ScriptReads | crates/controller/src/lib.rs:351-377 | Read statement by statement, a script of rules with paired quotes gives back exactly the rules it was made of. |
| RuleText.QuotedCloses | crates/controller/src/lib.rs:96-97 | Whatever the name, line breaks included, its comment closes: replacing quotes keeps the rule one statement. |
| RuleText.QuotedBears | crates/controller/src/lib.rs:96-97 | For all p and q and any name, the text of a rule made for p contains the marker of q if and only if p = q or the name spells that marker out. |
| RuleListing.LinesJoin | crates/controller/src/lib.rs:420-423 | Cutting a text into lines may be done apart before and after any line break, whatever the texts. |
| RuleListing.RuleIsShown | crates/controller/src/lib.rs:408-436 | For all p, q, handles and any name, searching the lines of a listed rule of p for the marker of q finds the handles that earlier lines of its comment read as under that marker, then the rule's own if and only if the last line of the comment bears the marker. |
| RuleListing.BlockBodiesShow | crates/controller/src/lib.rs:243-262 | So for both port rules with any ports. |
| RuleListing.UserBodyShows | crates/controller/src/lib.rs:99-108 | So for the rule by user. |
| RuleListing.NotFoundIn | crates/controller/src/lib.rs:419-427 | A rule that does not contain a marker is not found by it, over however many lines it runs. |
| RuleListing.FoundAsItselfExactly | crates/controller/src/lib.rs:408-436 | A rule made under a name is found by its own marker as its own handle, for all handles, if and only if the last line of its comment bears the marker and no earlier line that does reads as a handle; in particular for a name without a line break. |
| RuleListing.OneLineName | crates/controller/src/lib.rs:96-97 | A name of one line is always found as itself, and is safe if and only if it spells out no other process's marker. |
| RuleText.LineBears | crates/controller/src/lib.rs:419-427 | What is listed of a rule contains a marker if and only if the rule does. |
| RuleText.HandleAtEnd | crates/controller/src/lib.rs:428-432 | The handle read after the last "handle " of a line that ends in one is that one, whatever stands before it, itself "handle 7" included. |
| RuleText.FindHandles | crates/controller/src/lib.rs:420-436 | The handles of exactly the lines that contain the marker, in order. |
| RuleChain.DeleteEachShrinks | crates/controller/src/lib.rs:150-164 | Deleting one process's handles, with failure at any point, keeps every other rule in order and brings in none. |
| RuleChain.DeleteEachStops | crates/controller/src/lib.rs:150-164 | The first deletion that fails is the last: those before it are done, and those after it are not tried. |
| RuleChain.DeleteEachRemoves | crates/controller/src/lib.rs:150-164 | If all deletions succeed, none of the handles is left. |
| RuleChain.FoundIsHandles | crates/controller/src/lib.rs:408-436 | If every rule that is found by a marker is found as itself, searching for a marker gives exactly the handles of the process's rules, in chain order. |
| RuleChain.TargetsAreOwn | crates/controller/src/lib.rs:133-148 | The handles to delete, remembered or found, include all rules of the process and belong to no other's rule. |
| RuleChain.UnblockClears | crates/controller/src/lib.rs:133-167 | An unblocking that reports success leaves no rule of the process. |
| RuleRuns.UnblockTouchesOnly | crates/controller/src/lib.rs:133-167 | An unblocking, whether it succeeds or fails at any command, leaves every other process's rules, their order and their handles as they were. |
| RuleRuns.RetrySucceeds | crates/controller/src/lib.rs:133-167 | After an unblocking that failed anywhere, a second one with nft in order succeeds and clears the process. |
| RuleRuns.AddedRules | crates/controller/src/lib.rs:99-114 | The rules added under a safe name come last, have new handles, and are that process's and nobody else's. |
| RuleRuns.BlockKeepsSound | crates/controller/src/lib.rs:88-130 | Blocking under a safe name, with failure anywhere, keeps every live rule of a tracked process remembered, and touches nobody else. |
| RuleRuns.BlockSucceeds | crates/controller/src/lib.rs:88-130 | Blocking reports success if and only if ports could be read, there was a port or a known user, the script was taken with a handle to give for each rule, and the listing came; then two rules (with ports of both transports) or one stand at the end of the chain and all are remembered. |
| RuleStale.RunIsAccurate | crates/controller/src/lib.rs:88-177 | On every run with safe names, with any failures, a stale process has no rules and some stale handles; of every other tracked process exactly its live rules are remembered, in chain order. |
| RuleStale.ExactUnlessStale | crates/controller/src/lib.rs:88-177 | Hence the handles of all tracked processes are exactly their live rules if and only if no process is stale. |
| RuleStale.UnblockFailsIfStale | crates/controller/src/lib.rs:133-167 | After every such run, with nft in order, unblocking a process fails if and only if it is stale, and a second attempt succeeds. |
| RuleNames.StaleReached | crates/controller/src/lib.rs:170-177 | For every safe name, a run of one block and one unreported flush leaves exactly that process stale and the memory wrong. |
| RuleForeign.ForeignAfterRun | crates/controller/src/lib.rs:88-177 | On every run with any failures, and any names under which a rule is never found but as itself (all names of one line, whosever marker they spell), the rules found by nobody's marker are afterwards the same as at the start, in order, if no flush took effect, and none otherwise. |
| RuleForeign.ForeignRulesSurvive | README.md:33-35 | Hence they are left untouched if and only if no flush took effect or there were none. |
| RuleRuns.RunIsSound | crates/controller/src/lib.rs:88-177 | On every run of block, unblock and unblock-all with safe names, with any failures, every live rule of a tracked process is among its handles, and none of these is another's rule. |
| RuleStale.RunIsExact | crates/controller/src/lib.rs:88-177 | In particular, on every run without an unreported flush the handles of a tracked process are exactly its live rules, in chain order, and never none. |
| RuleRuns.UnblockAfterAnyRun | crates/controller/src/lib.rs:133-167 | After every run, an unblocking touches nobody else, leaves no rule of the process if it reports success, and otherwise one retry with nft in order does. |
| RuleNames.NamesMatter | crates/controller/src/lib.rs:96-97 | For any name whose rule is found as itself and also by another process's marker, a run in which all goes well loses the rule and keeps its handle. |
| RuleNames.UnfoundRuleStays | crates/controller/src/lib.rs:114-119 | If a rule is not found by its own marker, blocking adds it and reports failure, and unblocking reports success and leaves it. |
| RuleNames.BrokenName | crates/controller/src/lib.rs:423-426 | A name of two lines under which no rule is found. |
| RuleNames.OtherRuleTaken | crates/controller/src/lib.rs:133-167 | If a rule is found as another rule's handle, blocking and unblocking both report success, the other rule is deleted and the rule itself stays. |
| RuleNames.MisleadingName | crates/controller/src/lib.rs:423-432 | For every handle, a name of two lines under which every rule is found as that handle. |
| RuleNames.NameOkIsExact | crates/controller/src/lib.rs:88-167 | For every name: blocking under it in an empty chain, with any handle and any failures, and then unblocking anyone with any failures, always remembers the rule there is, leaves no rule when the process's own unblocking reports success, and leaves the rule when another is unblocked, if and only if the last line of the comment bears the own marker alone and no earlier line reads as a handle under any marker. |
| Controller.ListingHandles | crates/controller/src/lib.rs:408-436 | Searching the lines of nft's listing of any chain for a marker gives what is found of each rule, in chain order, and nothing of the lines around them. |
| Controller.OneRuleEach | crates/controller/src/lib.rs:99-112 | Whatever the name, the script sent to nft is read as exactly the rules meant. |
| Controller.Controller.FindRuleHandlesForPid | crates/controller/src/lib.rs:408-436 | What a search of the lines of the listing finds, whatever the comments hold, or a failure if the listing fails. |
| Controller.Controller.UnblockProcess | crates/controller/src/lib.rs:133-167 | Forgets the process, then deletes what was remembered, or what the listing shows if nothing was, and stops at the first failure; result, chain and map as the value model says. |
| Controller.Controller.BlockProcess | crates/controller/src/lib.rs:88-130 | Unblocks and ignores how that went, sends one script, finds the handles and remembers them; result, chain and map as the value model says, for every pattern of failures. |
| Controller.Controller.UnblockAll | crates/controller/src/lib.rs:170-177 | Flushes the chain and forgets all handles, in this order, and forgets none if the flush fails. |

## Left out

- RuleRuns.RunIsSound: asks that names are safe; `RuleNames.NameOkIsExact` shows that this is exactly the condition.
- RuleForeign.ForeignAfterRun: asks that names make rules that are found as themselves, which all names of one line do; `RuleNames.OtherRuleTaken` shows a foreign rule lost under another.
- RuleStale.RunIsExact: asks besides that no flush takes effect unreported, which is sufficient but not necessary; `RuleStale.ExactUnlessStale` has the exact condition.
- RuleRuns.UnblockAfterAnyRun: assumes, as the whole of the blocking part does, that nobody else edits the chain.
- Resolver.ResolverCache.ResolveFlowOwner: takes the order in which the hash map is walked as given, because the library fixes none.
- Publication.SortRows: stands for the library's sort; that its result is the only possible one is proved (`Publication.FaithfulRowsAreUnique`), its algorithm is not the library's.
- nft: the chain is modelled as a list of rules; nft appends, gives out increasing handles, reads a script by statements that end at line breaks outside quotes, takes it as a whole or not at all, and lists each rule with its text unchanged, line breaks included, its handle last, and a line break after it. It is taken to accept the text of the rules as the program writes it, with the comment before the verdict. The lines around the rules are fixed and bear no marker. The creation of table and chain at the start, and `list_rules`, are not part of this model.
- Rate limiting: its comments carry the same marker, so its rules and the blocking rules of one process are not independent; runs that mix the two are not modelled.
- Reading a process's ports under `/proc`, its user, the walk over `/proc/*/fd`, `/etc/passwd`: their results are inputs.
- Netlink socket creation, sending, and truncation to the receive buffer: the four dumps are one given list of datagrams, after which receiving fails. Struct reads from raw memory are byte offsets on a little-endian host with 64-bit sizes.
- Text is a sequence of characters of one byte each; slicing a hexadecimal text inside a longer character, which panics, is not modelled.
- The unchecked additions of the aggregator wrap around, as in an optimised build; a debug build would panic instead.
- Threads, channels and locks: a pass publishes rows and interface as one step; lock poisoning and readers between the two are not modelled.
- The capture loop, libpcap, filters and recording; the timestamp of a record, which nothing in the aggregator reads.
- IPv4 fragments, IPv6 extension headers and second VLAN tags: the parser does not interpret them, so a frame of the model has none that it could tell from payload.
- The CSV file, the home directory, the GUI except for its chart sum.
