# Bus exporter: a verified model

This project models the logic of a daemon that polls field-bus devices (Modbus,
SPI, I3C) and publishes their values as metrics, and proves what that logic
guarantees. To check the whole project:

    dafny verify dfyconfig.toml

## What is modelled

**Reading a Modbus device.** `Decoder` turns registers and wire bytes into numbers,
in four byte orders. `Coalesce` merges metrics, sorted by address, into ranges for one
read each; `Minimality` shows that no set of legal reads is smaller. `Bus` is the
device: a constant register map, and an answer function that lets any read fail at
any time; every call is logged. `BatchRead` is the batch read with its fallback to
individual reads, as loops over result slots; the function `BatchRun` says call by
call and slot by slot what the loops do. `BatchTheorems` proves that the batch is a
refinement of reading every metric alone and says exactly, from the configuration alone,
which metric it delivers and when it is complete; `BatchValues` says what it reports in
terms of the bits and registers the device holds; `BatchAccounting` counts and orders
its calls and settles what happens at register 65535.

**A collector task.** `Collector` has the connect loop, the poll loop and the reconnect
loop as methods of a class, in a world (`World`) whose every answer is arbitrary:
connects, writes, read results in any order, connection checks, the shutdown signal.
`CollectorTrace` states the rules every history of such a task obeys; the methods are
proved to keep them. `CollectorOrder`, `CollectorReasons`, `CollectorCounts`,
`CollectorValues` and `CollectorClash` derive what the rules mean for whole runs: calls,
counters, errors and published values are all counted or looked up in the events of the
history.

**Around it.** `Store` is the store that all collectors share. `KeyOrder`,
`PrometheusNames`, `PrometheusText` and `PrometheusReader` print the text format and
read it back, with a reader of format 0.0.4 that knows the type words "gauge" and
"counter". `I3c` is the retry loop with its address cache. `ConfigMerge` makes the list of
metrics out of files, defaults and inline metrics; `Spi` reads what the validated
configuration describes.

`Wrappers.Unfold` guards some predicates so that proofs can pass them on unopened; it
is true of everything and restricts nothing.

## Where the code and its documentation differ

The model follows the code in each case.

- The end of a merged range is a saturating 16-bit sum, so it cannot lie beyond
  register 65535, but the configuration accepts metrics that use that register
  (src/config.rs:1287-1297, src/config_tests.rs:624-637). Such a metric can come back as
  out of bounds. `DeliveredIffSafe` is the exact condition for a metric and
  `CompleteIffHarmless` for a batch, `FitsUnlessLastRegister` names the register,
  `LastRegisterIsLost` is an example. For the same reason a range can span 126 registers
  (`CrowdedSpanDoesNotFit`), and a range at register 65535 is read with count 0, which
  the reader rejects (`ValidIffNoEmptyRange`).
- The byte decoder and the register decoder differ in the middle byte orders, and for
  single registers in more: 16-bit values in the little orders, bytes and booleans in
  every order, because the byte decoder looks at the first byte on the wire
  (`DecodersAgreeExactly`).
- spec/collector.md:93-101 resets the backoff after a successful poll cycle. The code
  resets it after a successful connect, even if the init writes fail right after it
  (`ConnectResetsBackoff`).
- A metric named like the error counter of another, such as `a_errors`, is published
  with that count as soon as `a` has failed (`PublishedIsLatest`). Configurations without
  such names, and only those, always publish what was delivered
  (`FaithfulIffNoErrorNames`).
- spec/metrics.md:44-50 lists the collector's name and the unit as the strongest labels.
  In the code the metric's own labels are stronger than the collector's name, and only
  the unit is stronger than those (`LabelOf`).
- spec/i3c.md:105-116 retries transfer errors. In the code only the first error of a call
  is classified; any error during a retry is retried (`SuccessEndsCall`).
- The bound check for SPI payloads adds in 16 bits (src/config.rs:1235-1237);
  `ValidatedPayload` says when passing it suffices.

## Model

| member | source | states |
|---|---|---|
| Decoder.DecodeEncode | src/reader/decoder.rs:211-264 | every value of every 16-, 32- and 64-bit integer type, signed or not, survives encoding to registers and decoding, in each of the four byte orders |
| Decoder.EncodeDecode | src/reader/decoder.rs:211-264 | every register content decodes to an integer in the exact range of its type, and that integer encodes to the same registers |
| Decoder.FloatDecodeEncode | src/reader/decoder.rs:211-264 | every 32- and 64-bit pattern survives encoding to registers and decoding as a float, in each of the four byte orders |
| Decoder.FloatEncodeDecode | src/reader/decoder.rs:211-264 | every register content decodes to a float whose bit pattern encodes to the same registers |
| Decoder.DecodeIsCarried | src/reader/decoder.rs:211-264 | for all types and orders, the register decoder delivers a value if and only if the registers carry it: most significant register first after the rearrangement of the order, two's complement for signed types, the low byte for a byte, not zero for a boolean; scale and offset are passed on, further registers do not matter |
| Decoder.DecodeBytesIsCarried | src/reader/decoder.rs:66-184 | the byte decoder likewise: bytes in plain or reversed order, a byte as it is, the low bit for a boolean |
| Decoder.DecodeFails | src/reader/decoder.rs:66-81 | either decoder fails if and only if registers or bytes are missing |
| Decoder.ReorderArrange | src/reader/decoder.rs:186-208 | every byte string of the right length is the reordering of some registers: one half of the bijection |
| Decoder.ArrangeReorder | src/reader/decoder.rs:186-208 | the other half: registers are recovered from their reordered bytes |
| Decoder.DecodeBytesOnWire | src/reader/decoder.rs:66-184 | for every type and byte order, the byte decoder on the big-endian wire bytes of registers is the register decoder, at the corresponding plain order, on the registers as it sees them: single bytes from the high half, little-endian single registers turned round |
| Decoder.DecodersAgreeExactly | src/reader/decoder.rs:66-264 | the two decoders agree on a value if and only if, for several registers, the rearrangement of its byte order leaves them as they are; for 16 bits, the order is big or both bytes are equal; for a byte, both halves hold it; for a boolean, the low bit of the high half says whether the register is zero |
| Decoder.MidOrdersReduceToBigEndian | src/reader/decoder.rs:186-208 | the middle orders are big-endian after swapping the register halves, respectively the bytes of each register |
| Coalesce.Coalesce | src/reader/modbus/batch.rs:47-72 | the merging loop computes the function `Coalesced` |
| Coalesce.CoalescedIsSound | src/reader/modbus/batch.rs:38-72 | the members of all ranges, one after the other, are the sorted input; each range starts at its first member, ends at the largest member end, contains every member and has at most 125 registers, and none only at register 65535 |
| Minimality.HeadsNeedDifferentReads | src/reader/modbus/batch.rs:52-63 | no legal read (at most 125 registers, no more than 10 consecutive registers its members do not use) can hold the first items of two ranges |
| Minimality.CoalescedIsMinimal | src/reader/modbus/batch.rs:47-72 | any assignment of the items to legal reads, contiguous or not, has at least as many reads as there are ranges |
| Minimality.CoalescedIsLegal | src/reader/modbus/batch.rs:47-72 | the ranges are such an assignment, with legal reads if and only if every span fits into 125 registers |
| Minimality.SpansFitBelowLastRegister | src/reader/modbus/batch.rs:54-63 | and every span does, as long as no item uses register 65535 |
| Minimality.CrowdedSpanDoesNotFit | src/reader/modbus/batch.rs:54-63 | ten items merged into one range by their saturated ends although they span 126 registers |
| Minimality.GroupsAreRangeMembers | src/reader/modbus/batch.rs:52-70 | the groups of that assignment are the members of the ranges, each a contiguous slice of the input |
| Bus.Device.Read | src/reader/modbus/mod.rs:77-86 | a successful read returns the true registers at full length; a count outside the limits is rejected; every call is logged |
| BatchRead.ReadSingle | src/reader/modbus/batch.rs:114-156 | reading one metric makes exactly its one request: its kind, holding by default, its address, one bit or as many registers as its type takes; if that is answered the result is what the device holds there - 1 or 0 for a bit, the value its registers carry otherwise - with the metric's scale and offset, else an error |
| BatchRead.ReadRange | src/reader/modbus/batch.rs:211-236 | one range read with its decoding or fallback has exactly the calls and slot writes of `RangeRun` |
| BatchRead.ReadKind | src/reader/modbus/batch.rs:208-236 | sorting, merging and reading one register type has exactly the effect of `ClassRun` |
| BatchRead.ReadBits | src/reader/modbus/batch.rs:266-270 | coils and discrete inputs are read one by one, in input order, with exactly the effect of `ClassRun` |
| BatchRead.Classify | src/reader/modbus/batch.rs:178-206 | the metrics are split into holding, input and bit reads in input order; metrics without an address get their error at once |
| BatchRead.BatchReadCoalesced | src/reader/modbus/batch.rs:170-287 | the whole batch issues the calls of `BatchRun`, counts each of them and reports at every position the result written to that slot |
| BatchTheorems.EachSlotWrittenOnce | src/reader/modbus/batch.rs:174-270 | through grouping, sorting and merging every result slot is written exactly once and no other slot is |
| BatchTheorems.ResultIsWritten | src/reader/modbus/batch.rs:272-282 | every result is the outcome of a write to its own slot, so the "not processed" default is never used |
| BatchTheorems.WriteIsResult | src/reader/modbus/batch.rs:272-282 | and every write is the result at its slot |
| BatchTheorems.DecodedIsTrue | src/reader/modbus/batch.rs:75-111 | slicing a metric out of a range response gives its own registers' value, unless they run past the end of the response |
| BatchTheorems.BatchRefinesSingleReads | src/reader/modbus/batch.rs:170-287 | whatever the device answers and whichever ranges fail, a value the batch reports is the value reading that metric alone gives |
| BatchTheorems.SafeMetricIsDelivered | src/reader/modbus/batch.rs:211-236 | a metric that can always be read alone gets its value, whatever the other metrics are, whichever of them cannot be read and whichever ranges fail with them, if it does not use register 65535 or its range is empty |
| BatchTheorems.UnsafeMetricIsLost | src/reader/modbus/batch.rs:54-111 | every other metric comes back as out of bounds from a device that answers everything |
| BatchTheorems.DeliveredIffSafe | src/reader/modbus/batch.rs:170-287 | the batch delivers the value of a configurable metric from every device that can always read it alone, if and only if the metric does not use register 65535 or its range is empty |
| BatchTheorems.RangeSucceeds | src/reader/modbus/batch.rs:211-236 | a range yields all its values if and only if it is answered and holds its members, or is refused and every member is answered alone |
| BatchTheorems.FitsUnlessLastRegister | src/reader/modbus/batch.rs:54-64 | members fit into their range if and only if none uses register 65535 |
| BatchTheorems.BatchIsComplete | src/reader/modbus/batch.rs:170-287 | on any device, every addressed metric has a value if and only if every answered range holds its members, every member of a refused range is answered alone, and every bit read is answered |
| BatchTheorems.HarmlessIffSafe | src/reader/modbus/batch.rs:54-64 | all ranges hold their members or are empty if and only if every metric meets the condition of `DeliveredIffSafe` |
| BatchTheorems.CompleteIffHarmless | src/reader/modbus/batch.rs:170-287 | a batch of configurable metrics is complete on every device that can always read each of them alone, if and only if all its ranges hold their members or are empty |
| BatchValues.ReportedIsHeld | src/reader/modbus/batch.rs:114-287 | every value a batch reports is what the device holds for that metric, whatever is answered and whichever ranges fail |
| BatchValues.HeldIsOne | src/reader/modbus/batch.rs:114-156 | there is only one such value |
| BatchValues.BitIsReported | src/reader/modbus/batch.rs:136-154 | a coil or discrete input is reported as 1 if its bit is set and as 0 otherwise, and it is reported if its request is always answered |
| BatchValues.IntegerIsReported | src/reader/modbus/batch.rs:75-134 | an integer stored in the device in the byte order of its metric is reported as that integer, with the scale and offset of the metric |
| BatchValues.FloatIsReported | src/reader/modbus/batch.rs:75-134 | a stored float is reported with its bits |
| BatchAccounting.BatchCalls | src/reader/modbus/batch.rs:175-270 | calls are ranges plus members of failed ranges plus bit metrics; at most two per metric, at most one if no range read fails |
| BatchAccounting.CallsAreOrdered | src/reader/modbus/batch.rs:208-270 | whatever fails, holding registers are read before input registers and both before bits |
| BatchAccounting.BatchRequestsAllowed | src/reader/modbus/mod.rs:13-35 | every request is within the limits of sections 6.1 to 6.4 of the MODBUS Application Protocol Specification V1.1b3, or the empty read at register 65535 that the reader rejects |
| BatchAccounting.ValidIffNoEmptyRange | src/reader/modbus/mod.rs:13-35 | on any device, every request is within the limits if and only if no range starts at register 65535 |
| BatchAccounting.SortIsStable | src/reader/modbus/batch.rs:209 | the order of the sort: by address, equal addresses in input order |
| BatchAccounting.LastRegisterIsLost | src/reader/modbus/batch.rs:54-64 | a 32-bit metric at 65534 is lost on a device that answers everything, though it can be read alone |
| BatchAccounting.LastRegisterAloneSurvives | src/reader/modbus/batch.rs:211-236 | a 16-bit metric at 65535 alone survives through the fallback |
| Collector.Task.AttemptConnect | src/collector.rs:105-144 | one pass of the connect loop keeps the rules and the task's invariant, and extends the history |
| Collector.Task.AttemptReconnect | src/collector.rs:41-73 | one pass of the reconnect loop does |
| Collector.Task.Reopen | src/collector.rs:52-69 | after the wait, polling resumes if and only if the connect and the init writes succeed |
| Collector.Task.AwaitRetry | src/collector.rs:43-51 | the wait is the current backoff, which then doubles up to a minute, or shutdown is noticed and reads are cancelled |
| Collector.Task.Initialise | src/collector.rs:111-128 | init writes happen exactly where a writer and steps for it exist |
| Collector.Task.PollCycle | src/collector.rs:148-398 | one pass of the poll loop keeps the rules and the invariant: writes, read, accounts and publication in order |
| Collector.Task.RunPrePoll | src/collector.rs:169-234 | a failed pre-poll skips the cycle and adds one to the failures in a row, a successful one sets them to zero; the task goes over to reconnecting if and only if it was the third |
| Collector.Task.Process | src/collector.rs:247-287 | going through the results of a read in any order yields the samples, counts and loss that `Digest` defines, and counts each error |
| Collector.Task.CarryForward | src/collector.rs:329-337 | previous samples fill exactly the gaps of this cycle's samples |
| Collector.Task.EnterErrors | src/collector.rs:339-357 | error counters are entered under their names with their counts, everything else stays, in whatever order the counts are visited |
| Collector.Task.PublishCache | src/collector.rs:329-367 | the previous snapshot with this cycle's samples over it and all error counters entered is published in one call, and retained as the next previous snapshot |
| Collector.Task.Run | src/collector.rs:76-399 | any number of passes from any reachable state keeps the history legal; a pass never stalls without a call, and a task that is done has finished as `Finished` says |
| CollectorOrder.ReadsAreSetUp | src/collector.rs:105-239 | every read follows a successful connect, then init writes where configured, then the start of its own cycle, then that cycle's pre-poll where configured, with no lifecycle call in between |
| CollectorOrder.BackoffIsCappedPower | src/collector.rs:51 | the j-th doubling is min(2^j, 60) |
| CollectorOrder.WaitsBackOff | src/collector.rs:44-56 | the j-th wait since the last successful connect takes min(2^(j-1), 60) seconds |
| CollectorOrder.ConnectResetsBackoff | src/collector.rs:109-124 | no wait precedes a cycle since its connect, and the first wait after a successful connect takes one second, poll cycle or not |
| CollectorOrder.ConnectsAreSpaced | src/collector.rs:41-73 | there is a wait between any two connect attempts |
| CollectorOrder.ThreeFailuresForceReconnect | src/collector.rs:171-233 | at most two pre-polls in a row have failed whenever a cycle starts, a pre-poll is made or a read is issued without a connect since |
| CollectorOrder.ShutdownIsObeyed | src/collector.rs:161-166 | nothing happens between noticing shutdown and cancelling reads, and reads are cancelled for no other reason |
| CollectorOrder.ShutdownIsLookedFor | src/collector.rs:160-166 | the task looks for a shutdown request between the start of a cycle and its writes or read, between a publish and the next cycle, and between a wait and the next connect |
| CollectorOrder.CancelIsFinal | src/collector.rs:115-139 | after cancelling, the task only disconnects |
| CollectorOrder.FinishedRunsAreClosed | src/collector.rs:380-396 | a finished run has cancelled exactly once, done nothing after it but disconnect, and its last lifecycle call is a disconnect |
| CollectorReasons.DisconnectsHaveReasons | src/collector.rs:178-233 | before shutdown the task disconnects only after a failed connect, failed init writes, a read that found the connection gone or a third failed pre-poll in a row, with no lifecycle call in between |
| CollectorReasons.ReasonsEndPolling | src/collector.rs:207-311 | and after each of these no cycle starts before a successful connect |
| CollectorCounts.DigestMeaning | src/collector.rs:269-281 | a read counts as failed if and only if a configured metric got an error, as lost if and only if the connection was gone after one |
| CollectorCounts.PollAccounting | src/collector.rs:154-327 | at every moment all polls but at most the current one are accounted for; when a cycle starts, the three counters are the cycles, the reads without error and the failed cycles of the history |
| CollectorCounts.FinalBalance | src/collector.rs:160-166 | a run ends with one poll unaccounted for if and only if it was cancelled after the start of a cycle and before its read or the failure of its pre-poll; otherwise the counters balance |
| CollectorCounts.ErrorConservation | src/collector.rs:269-285 | at every cycle start, at every publication and at the end of a run read_errors is the sum of the errors charged to all metrics plus the reads cut short by a lost connection |
| CollectorCounts.ErrorsCounted | src/collector.rs:269-285 | the error count the task keeps for a metric is the number of reads that had an error for it and no lost connection up to there, and there is one as soon as there is such a read |
| CollectorCounts.ErrorsGrow | src/collector.rs:282-283 | it never decreases, and only configured metrics have one |
| CollectorValues.SamplesAreDelivered | src/collector.rs:254-268 | the samples of a finished read are exactly the values it delivered for configured metrics |
| CollectorValues.LostReadsAreNotPublished | src/collector.rs:275-311 | a read that found the connection gone is never published |
| CollectorValues.LatestIsExplained | src/collector.rs:329-337 | the latest sample of a metric is that of the most recent published read that delivered it, and there is none if and only if no published read ever did |
| CollectorValues.SnapshotKeys | src/collector.rs:329-367 | the keys of a snapshot are exactly the metrics some published read delivered and the error counters of the metrics that have failed |
| CollectorValues.CounterIsPublished | src/collector.rs:339-357 | every metric that has failed is published under its name followed by "_errors" with the number of its errors, as a counter with its own description unless a metric of that name has been delivered |
| CollectorValues.PublishedIsLatest | src/collector.rs:329-367 | what is published for a delivered metric is the sample of its most recent delivery, or that sample with the number of errors of the metric whose counter has the same name; so it is the delivered one if and only if no such number says otherwise |
| CollectorValues.PublishedMetrics | src/collector.rs:329-367 | without names that look like error counters, a metric is published if and only if a published read delivered it |
| CollectorValues.PublishedIsMostRecent | src/collector.rs:329-367 | and then with its most recent delivered value and the name, type, description and unit of the first configured metric of that name |
| CollectorValues.SnapshotsGrow | src/collector.rs:339-367 | published keys stay published, and error counters never decrease between snapshots |
| CollectorClash.ErrorCounterShadowsMetric | src/collector.rs:352-356 | every configuration with metrics `a` and `a_errors`, whatever else it contains, has a legal run that publishes 1 for the latter in place of any delivered value |
| CollectorClash.FaithfulIffNoErrorNames | src/collector.rs:329-367 | every snapshot of every run holds the most recent sample of every delivered metric, if and only if no metric is named like the error counter of another |
| Store.MetricStore.Publish | src/metrics.rs:52-84 | the collector's entry becomes a snapshot of its metrics: one sample per name, the last one, labels resolved by precedence; no other entry changes |
| Store.MetricStore.RemoveCollector | src/metrics.rs:117-119 | only that entry goes, and the result says whether it was there |
| Store.MetricStore.MetricsFor | src/metrics.rs:104-109 | what the last publish of the collector put there, with labels resolved, nothing after a removal, nothing before its first publish |
| Store.MetricStore.AllMetricsFlat | src/metrics.rs:95-101 | the snapshots of all collectors, each exactly once, in some order |
| Store.SnapshotIsDetermined | src/metrics.rs:66-81 | two snapshots of the same publish hold the same samples |
| Store.SampleIsLabelled | src/metrics.rs:59-77 | every sample is the last metric of its name, changed in its labels only; key by key the unit comes first, then the metric's own labels, the collector's name, the collector's labels and the global ones |
| Store.CollectorLabelIsSet | src/metrics.rs:59-77 | samples without labels of their own always carry the name of their collector |
| Store.EntryIsLastSnapshot | src/metrics.rs:82-83 | in any interleaving of publishes and removals an entry is the last snapshot of its collector, absent after a removal |
| Store.InterleavingIsIrrelevant | src/metrics.rs:45-84 | two interleavings of the same calls of every collector leave the same store |
| KeyOrder.Ascending | src/exporter/prometheus/mod.rs:76-84 | iteration of a sorted map: all keys in ascending order |
| KeyOrder.InOrderIsSorted | src/exporter/prometheus/mod.rs:76-84 | ascending and without repetition |
| KeyOrder.LessIsLexicographic | src/exporter/prometheus/mod.rs:76-84 | the order is decided at the first difference, a proper prefix comes first |
| PrometheusNames.SanitizeName | src/exporter/prometheus/mod.rs:18-34 | the loop computes the function `Sanitized` |
| PrometheusNames.SanitizedIsLegal | src/exporter/prometheus/mod.rs:17-34 | the result is a legal name, legal names and only those are left alone, and sanitising twice is sanitising once |
| PrometheusNames.SanitizedCharwise | src/exporter/prometheus/mod.rs:17-34 | ASCII letters, digits and underscores stay, every other character becomes an underscore, and one is put before a leading digit and for the empty string |
| PrometheusNames.MetricNameIsLegal | src/exporter/prometheus/mod.rs:37-45 | the printed metric name is legal for every name and unit |
| PrometheusNames.EscapedCharwise | src/exporter/prometheus/mod.rs:60-63 | the three replacements one after the other equal one character-wise escape |
| PrometheusNames.ValueIsRead | src/exporter/prometheus/mod.rs:60-64 | reading undoes escaping for every label value |
| PrometheusNames.SampleIsRead | src/exporter/prometheus/mod.rs:48-69 | a reader of the line recovers the name, the labels in order with sanitised keys and original values, and the number |
| PrometheusText.FormatMetricLine | src/exporter/prometheus/mod.rs:48-69 | the line of a sample, its labels in key order |
| PrometheusText.RenderMetrics | src/exporter/prometheus/mod.rs:72-100 | the text is the family texts of all printed names in ascending order, each with all metrics of that name |
| PrometheusReader.HelpIsRead | src/exporter/prometheus/mod.rs:91-92 | reading undoes the escaping of descriptions, which stay on one line |
| PrometheusReader.TextIsRead | src/exporter/prometheus/mod.rs:72-100 | a reader that allows one HELP and one TYPE per name, and only the types gauge and counter, accepts the whole text and finds every family with its description, type, and all samples intact and in order |
| PrometheusReader.FamilyIsHeaded | src/exporter/prometheus/mod.rs:84-92 | every family found has the name, description and type of the first metric printed under that name: "bus_", the sanitised name and, for a unit, "_" and the sanitised unit |
| PrometheusReader.MetricIsFound | src/exporter/prometheus/mod.rs:48-97 | for every metric there is a sample in the family of its name with its printed value and all its labels, sanitised keys in ascending order of the keys, values unchanged |
| PrometheusReader.EveryMetricPrinted | src/exporter/prometheus/mod.rs:78-97 | every metric is in the family of its printed name, behind the earlier metrics of that name |
| PrometheusReader.PlacesDiffer | src/exporter/prometheus/mod.rs:78-97 | no two metrics share a place |
| PrometheusReader.NothingElsePrinted | src/exporter/prometheus/mod.rs:78-97 | the families have as many samples as there are metrics |
| I3c.Reader.ReadRegister | src/reader/i3c/mod.rs:326-381 | bytes come from the last transfer, to the cached address; an error means no address, a poisoned lock, a first error no retry mends, or three failed retries |
| I3c.Reader.Retry | src/reader/i3c/mod.rs:349-370 | one retry waits, forgets a dynamic address, resolves and transfers, within the rules |
| I3c.Reader.ResolveAddress | src/reader/i3c/mod.rs:294-301 | a cached address is used as it is, otherwise one lookup is made and cached |
| I3c.CallsAreBounded | src/reader/i3c/mod.rs:326-381 | at most four transfers and three backoffs, at most 2600 ms of waiting, and a static address stays cached |
| I3c.BackoffsAreListed | src/reader/i3c/mod.rs:349-352 | the waits before the three retries take 100, 500 and 2000 ms |
| I3c.RetriesLookUp | src/reader/i3c/mod.rs:349-363 | in dynamic modes a retry uses an address looked up after the backoff that followed the failure |
| I3c.StaticModeStays | src/reader/i3c/mod.rs:304-308 | in static mode nothing is looked up and every transfer goes to the configured address |
| I3c.SuccessEndsCall | src/reader/i3c/mod.rs:339-367 | a successful transfer is the last step and leaves its address cached; so is a first error that is no transfer error |
| ConfigMerge.Insert | src/config.rs:741-802 | inserting into the insertion-ordered map replaces in place or appends |
| ConfigMerge.MergedNames | src/config.rs:741-804 | every name once, in the order of first occurrence |
| ConfigMerge.MergedLookup | src/config.rs:741-804 | under each name the last metric of that name |
| ConfigMerge.MergedEntry | src/config.rs:741-804 | entry by entry: the k-th metric is the last of the k-th name to occur, and no name repeats |
| ConfigMerge.ItemsFail | src/config.rs:757-795 | merging fails if and only if a file is unreadable, malformed or empty, or lacks a type or data type that its defaults do not supply |
| ConfigMerge.EntryIsTaken | src/config.rs:669-731 | field by field: a metric of a file has its own value if it has one, otherwise the default of the file, otherwise the built-in default; name and address are its own |
| ConfigMerge.ItemsFrom | src/config.rs:784-795 | the items of all files are their entries in order, each by that law |
| ConfigMerge.ItemsError | src/config.rs:757-791 | the error is that of the first file that fails: unreadable, malformed, empty, or its first entry without a type or, failing that, a data type |
| ConfigMerge.MergeResolves | src/config.rs:741-804 | the merged list has every name of the entries and inline metrics once, in the order of their first places, each with the metric of its last place |
| ConfigMerge.Collector.ResolveMetricsFiles | src/config.rs:740-805 | files in order, then inline metrics, resolved as in `MergeResolves`; it succeeds if and only if every file is complete, and otherwise reports the error of the first file that is not and leaves the metric list unchanged |
| Spi.ValidatedExactly | src/config.rs:1216-1246 | where no 16-bit sum wraps, a metric is validated if and only if it has a command, a plain byte order and a payload that ends within the configured response length or, without one, within the command |
| Spi.ValidatedPayload | src/config.rs:1235-1237 | for a validated metric the payload lies within the response if and only if the check did not wrap or the command alone is long enough |
| Spi.WrappedCheckPasses | src/config.rs:1235-1237 | a metric that passes the check but whose payload does not lie within the response |
| Spi.ReadMetric | src/reader/spi/mod.rs:143-189 | exactly one transfer, of the command padded with zeros to the configured response length; the reading is what the answer to that transfer carries at the offset, with the scale and offset of the metric, and decoding it cannot fail |

## Left out

- Transports (TCP, serial lines, ioctls, sysfs scanning), the async runtime, timeouts and wall-clock times including `updated_at`: answers are arbitrary, waits are recorded as seconds or milliseconds.
- Floating point: readings keep the exact integer or the bit pattern together with scale and offset, and the collector passes values on as reals; rounding and the printing of numbers are not modelled, only that a printed number fits on a line.
- How long the pause between cycles is: it is a point where shutdown may be noticed. Poll durations, the read_requests counter and logging are not modelled.
- The library sort of the batch read is a stable insertion sort written as a function; `SortIsStable` fixes its result.
- BatchRead.BatchReadCoalesced: the slots are a sequence that the methods pass along, not an array updated in place; the value of the error texts is not modelled.
- Bus.Device.Read: the device's registers do not change during a batch, so that values of different reads can be compared.
- Collector.Task.PollCycle: that a task shuts down eventually is not stated, only where it looks for a request and that noticing one leads to the end in the next steps. After a failed pre-poll a late cycle has no pause, and no look.
- Store.MetricStore.Publish: concurrency is modelled by sequences of atomic calls, as the sharded map provides them per entry; a reader that walks all entries while others publish is not.
- I3c: the error classification is an arbitrary flag of each failed transfer, and the test hook that sets the cached address is absent.
- Spi.ReadMetric: the padded transmit buffer is computed as a value; the resize in place is not shown.
- ConfigMerge: the SPI fields of a metric, which the merge copies unchanged, and the YAML and file handling.
- The I2C reader, the OTLP and MQTT exporters, HTTP serving, the command line, pulling of configurations and the one-field checks of the validation: plumbing without invariants of its own.
