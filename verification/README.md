# kafkascope: a verified model of the service layer

This project models the algorithmic cores of kafkascope, a web UI for Kafka, and proves what
they promise:

* **The protobuf wire walker** (`Bits`, `Varint`, `Utf8`, `Base64`, `Wire`, `WireGrammar`,
  `WireTheorems`, `WireRoundTrip`). The loops that read varints, cut fields and fill the
  result dict are methods over bytes and positions. They are proved against a specification
  on byte strings, and that against an unambiguous grammar of tokens and a grouping of their
  values. A reference encoder follows the Protocol Buffers Encoding guide ("Base 128 Varints",
  "Message Structure"); the round trip with it is an if-and-only-if.
* **The search, the bounded scan and the live tail** (`Messages`, `Search`, `Logs`, `Planner`,
  `Scan`, `ScanTheorems`, `Tail`, `Account`, `Complete`). `Search` says of a message alone what
  every filter asks of it. The broker is any sequence of records,
  end-of-partition events and errors, delivered in portions it chooses; the client may hang up at
  any turn. What holds, holds for every such environment and after every number of turns.
* **Watermark arithmetic** (`Sums`, `Cluster`, `Groups`, `GroupTheorems`, `Purge`). Lag, reset
  targets, scan windows, topic counts and purge counts are computed by separate pieces of code;
  they are proved to agree. Purge is a state machine whose steps interleave with producers.
* **Codecs and caches** (`Registry`, `Payload`, `CachedPayload`, `Headers`). Registry framing
  and its inverse, the schema cache for one caller and for many at once, the Avro schema cache,
  and the header box with its printed form.

Python's `bytes` are sequences of numbers below 256, `str` is Dafny's `string` (Unicode scalar
values), integers are unbounded, and bitwise operators are defined on naturals and proved equal
to the arithmetic they stand for. A dict that the code fills keeps its insertion order.

Parameters of the model, not part of it: `str.isprintable`, `str.lower`, the JSON and Avro
libraries, the texts of exceptions, the registry's contents and whether it is up, the broker's
deliveries, and the time at which anything happens.

Where the code and its documentation disagree, the model follows the code and says exactly when
the documented behaviour holds:

* "Reached the end of the window" is reported in three places. It is right when nothing remains;
  after an empty fetch, exactly when only gaps are left; after a spent budget, exactly when as
  many late records were scanned as the window has gaps: the consumer does not stop at the planned
  ends, and what is appended during the scan counts against the budget
  (`Complete.EndOfWindowIff`, `Complete.EndOfWindowGapFree`, with the runs
  `Complete.LateRecordLooksFinished`, `Complete.QuietBrokerLooksFinished` and
  `Complete.TrailingGapIsSeen`).
* "Nothing in the selected window" is reported whenever the smaller of the planned total and the
  scan limit is 0; it is right exactly when the total is 0, or, in terms of records, when all the
  planned offsets are gaps (`Complete.NothingInWindowIff`, `Complete.ZeroLimitLooksEmpty`).
* A purge returns the number of offsets between the watermarks, which is the number of records
  exactly when no offset is a gap (`Cluster.CountIsRecordsIff`).
* "Cached forever" is true of a schema exactly when no caller that missed the cache earlier is
  still on its way to store another answer (`Registry.FinalIffSettled`,
  `Registry.RaceForgetsSchema`).
* The Avro cache is keyed by id alone, so over a run of payloads its answers are right for every
  reader exactly when each id means one schema throughout, whatever registries are involved
  (`CachedPayload.CachedAvroRightIff`; `CachedPayload.TwoRegistries` is a run where it does not).
* A field produced against a subject's latest schema is shown under the encoding it was produced
  with exactly when that schema is Avro or JSON (`Payload.EncodingNamedIffAvroOrJson`).
* The generic protobuf reading is right exactly for trees on which the classifier's guesses are
  right (`WireRoundTrip.RoundTripIff`), and it accepts input cut short exactly when the cut
  leaves no varint unfinished or missing (`WireRoundTrip.PrefixAcceptedIff`,
  `WireRoundTrip.TruncationAcceptedIff`).

`dafny verify dfyconfig.toml` checks the whole project.

## Model

| member | source | states |
|---|---|---|
| Bits.OrOfDisjointIsSum | app/services/decode.py:113 | or-ing a shifted value above the bits already collected is adding it, for unbounded integers |
| Bits.ByteMasks | app/services/decode.py:113-145 | the masks 7F, 80, 7 and the shift by 3 are remainders and quotients; the continuation bit is set exactly from 128 on |
| Varint.TakeByte | app/services/decode.py:111-116 | one pass of the varint loop appends one base-128 digit to the value read so far |
| Varint.ReadVarintAt | app/services/decode.py:106-118 | success returns the value of a terminated varint of 1 to 10 bytes lying at the position, and its end; failure means no terminator in the next 10 available bytes, and says which ran out |
| Varint.ReadVarintIff | app/services/decode.py:106-118 | the reader accepts exactly the strings that begin with such a varint, and returns the sum of (b_i mod 128) * 128^i |
| Varint.ReadVarintErrIff | app/services/decode.py:109-118 | it fails exactly when none of the first ten available bytes terminates; "too long" exactly when ten were available |
| Varint.ReadVarintBound | app/services/decode.py:113-118 | values stay below 2^70 (not 2^64) |
| Varint.VarintRoundTrip | app/services/decode.py:106-118 | reading a canonical encoding of any v < 2^70 before any suffix returns v and its exact end |
| Varint.StripProtobufIndex | app/services/decode.py:121-132 | the stripping loop returns what is left after the count and that many varints, or the reader's error |
| Varint.StripIndexInverts | app/services/decode.py:121-132 | a plain-varint count and indexes in front of a body are stripped to exactly the body, the lone 0x00 included |
| Utf8.DecodeIff | app/services/decode.py:49-177 | the strict decoder accepts exactly the UTF-8 encodings of texts (section 4 of RFC 3629) and is the encoder's inverse |
| Utf8.Vectors | app/services/decode.py:49-177 | the encodings of section 7 of RFC 3629 come out, one for each length |
| Base64.RoundTrip | app/services/decode.py:51-188 | base64 text (section 4 of RFC 4648) decodes to the bytes it was made from |
| Base64.Vectors | app/services/decode.py:51-188 | the test vectors of section 10 of RFC 4648 come out |
| Wire.ReadContentAt | app/services/decode.py:146-160 | the content of a field by wire type and the position after it, which overruns the input when a slice was short |
| Wire.ReadFieldAt | app/services/decode.py:144-160 | one field cut at a position is the token at the front of the remaining bytes |
| Wire.Store | app/services/decode.py:162-168 | what the dict holds after one more occurrence of a key |
| Wire.WalkProtobuf | app/services/decode.py:135-169 | the loop over positions returns the dict, or the error, that the specification on the whole byte string gives |
| Wire.ClassifyChunk | app/services/decode.py:172-188 | the mutually recursive classifier returns what `Classify` is: text, nested message or base64 (told apart by `WireTheorems.TextShownIff`, `ClassifyTells`) |
| WireGrammar.ReadTokensIff | app/services/decode.py:141-160 | the input is cut into tokens ts if and only if ts laid end to end are the input, each is well formed and only the last may be short: the grammar is unambiguous |
| WireGrammar.GroupIsGrouping | app/services/decode.py:162-168 | the dict built by the loop has each key once, in order of first occurrence, holding its sole value or the list of all its values in order |
| WireGrammar.DecodeIff | app/services/decode.py:135-169 | on every byte string: the walk returns d if and only if the bytes have a tokenization whose values d groups |
| WireTheorems.FieldKeyInjective | app/services/decode.py:162-188 | keys are `field_` and the decimal numeral of the field number, without leading zeros; they tell field numbers apart and never equal `__bytes_b64__` |
| WireTheorems.FieldsByNumber | app/services/decode.py:162-168 | every field number on the wire holds its sole value or all its values in wire order; other numbers have no key |
| WireTheorems.MessageNonEmpty | app/services/decode.py:183-185 | a successful parse of non-empty bytes is never an empty dict |
| WireTheorems.ParsedChunkIsNested | app/services/decode.py:182-188 | so the emptiness test never sends a parsed chunk to base64 |
| WireTheorems.TextShownIff | app/services/decode.py:172-181 | the bytes of a text are shown as that text if it has a line feed, tab or space in it, whatever is printable; if it has none, exactly if it is printable |
| WireTheorems.ClassifyTells | app/services/decode.py:172-188 | text exactly when the chunk is empty or encodes a text with a line feed, tab or space in it or a printable one; base64 exactly when it is neither that nor a message; both give the bytes back, and the readings cannot be confused |
| WireTheorems.DepthBound | app/services/decode.py:135-188 | a message of n >= 1 bytes decodes to at most (n + 1) / 2 dicts inside one another |
| WireRoundTrip.EncodingTokenizes | app/services/decode.py:141-160 | an encoded message is cut back into the tokens it was made of |
| WireRoundTrip.RoundTripIff | app/services/decode.py:135-188 | decoding an encoded tree gives that tree with repeated fields grouped if and only if every text passes the text test, every nested message is non-empty and fails it, and all other bytes are non-empty, fail it and do not parse |
| WireRoundTrip.TruncationAcceptedIff | app/services/decode.py:106-158 | a message cut anywhere inside the payload of its last field is accepted with the short payload if and only if that field is delimited or of fixed width; a cut varint is a truncation error |
| WireRoundTrip.PrefixAcceptedIff | app/services/decode.py:106-169 | any prefix of an encoding is accepted if and only if it ends between two fields or in the payload of a field that is not a varint; otherwise the walk reports a truncated varint |
| Messages.LookupPath | app/services/messages.py:115-125 | the loop over the segments is the walk from node to node that stops at null |
| Messages.LookupComposes | app/services/messages.py:108-125 | walking p + "." + q is walking p and then q |
| Messages.LookupFinds | app/services/messages.py:108-125 | every node a path of dot-free names and list indexes leads to through non-null nodes is found under the path's dotted rendering |
| Search.SplitIff | app/services/messages.py:115 | a path is split into the dot-free segments that give it back when joined by dots |
| Search.LookupIff | app/services/messages.py:108-125 | a lookup finds a node if and only if the segments lead to it: members by name, list elements by any numeral for their index, through nodes that are not null |
| Search.KeyFilterIff | app/services/messages.py:168-169 | the key filter alone: the lowered key, a missing one counting as empty, is a + lowered filter + b for some a and b; nothing else of the message matters |
| Search.ValueFilterIff | app/services/messages.py:171-172 | the same for the value |
| Search.HeaderFilterIff | app/services/messages.py:174-179 | the header filters alone: one header has exactly the name and contains the value; a value without a name filters nothing |
| Search.PathFilterIff | app/services/messages.py:181-191 | the path filters alone: the value is JSON, the path leads to a node, and the rendering of the node contains the wanted text; a text without a path filters nothing |
| Search.FiltersConjoin | app/services/messages.py:167-193 | a message passes all filters exactly when it passes each |
| Search.MatchesIff | app/services/messages.py:167-193 | so the search keeps exactly the messages that satisfy that conjunction, said without its functions |
| Cluster.TopicMessageCount | app/services/cluster.py:98-109 | the sum of the watermark spans, or None when the topic is gone |
| Cluster.CountIsRecordsIff | app/services/admin.py:125-156 | the sum of watermark spans, which the topic count and the purge count report, is never below the number of records held and equals it if and only if no offset between the watermarks is a gap |
| Cluster.TimeTargetSeparates | app/services/messages.py:222-228 | the offset for a time has only older records before it, and the record at it, if any, is not older; the end when everything is older |
| Sums.SortedAscends | app/services/messages.py:206 | partitions are taken in ascending order |
| Planner.TimeStarts | app/services/messages.py:223-228 | the timestamp branch puts every partition at its offset for the time |
| Planner.PlanWindows | app/services/messages.py:219-238 | starts, ends and total of the window for each start mode, and the two ways to fail (no timestamp; a lookback over no partition) |
| Planner.MakePlan | app/services/messages.py:196-238 | the plan: for a given partition that one alone, else all of the topic's in ascending order, each from its start to its high; every failure has its exact condition (unknown topic, unknown partition, missing timestamp, a lookback over no partition) |
| Planner.TailAssignments | app/services/messages.py:321-341 | a tail is assigned the given partition alone, or all of the topic's, each at its high watermark; an unknown topic or partition is refused |
| Planner.WindowsInRange | app/services/messages.py:219-236 | low <= start <= end = high in every mode |
| Planner.LatestWindow | app/services/messages.py:231-236 | total <= max(lookback, n), and more than lookback - n when every partition is long enough |
| Planner.LatestShares | app/services/messages.py:231-236 | each partition contributes its last records, as many as its share or all it holds; the share is the largest number that all partitions can have out of the lookback, and at least 1 |
| Planner.EarliestTotalIsCount | app/services/messages.py:229-236 | the total from the earliest offset is the topic's message count, although the partitions are taken in another order |
| Scan.ScanBatch | app/services/messages.py:293-312 | the inner loop, with stats and remaining updated in place, takes exactly the specified steps |
| Scan.Scan | app/services/messages.py:241-318 | the generator's loop reaches exactly the state of the specified state machine after any turns |
| ScanTheorems.ScanEmitsMatches | app/services/messages.py:293-312 | hits are the matches among the processed records, in order, at most max(1, limit); a limit stop yields the first max(1, limit) matches of all that is delivered and its last record is its last hit |
| ScanTheorems.EventsTellTheRun | app/services/messages.py:261-316 | the events are (hit* progress)* hit* done with one final done exactly when the scan stopped (none after an error); they are only ever added; every progress states how many records had been processed and hits yielded at the end of the turn it was yielded in, and the hits so far are the matches among those records |
| ScanTheorems.ErrorEndsScan | app/services/messages.py:293-299 | for every run: the status is a raised error if and only if the last item taken is that broker error, and no earlier item taken is one |
| ScanTheorems.CancelledIff | app/services/messages.py:269-272 | the scan is cancelled if and only if it reached, still running, a turn at which the client had hung up; that turn takes nothing more |
| ScanTheorems.BudgetStop | app/services/messages.py:273-279 | a spent budget is reported only when exactly as many records were scanned as the scan limit allows and the window planned more |
| ScanTheorems.FetchWithinBudget | app/services/messages.py:269-300 | a turn that leaves the scan running takes exactly what is ready, up to 500 items and the remaining budget; no turn takes more |
| ScanTheorems.ScannedWithinBudget | app/services/messages.py:259-300 | no reachable state has scanned more than the smaller of the planned total and the scan limit, whatever is delivered |
| ScanTheorems.ScanTerminates | app/services/messages.py:269-316 | at most budget + 1 turns besides those that take items but no record |
| ScanTheorems.RecordlessAreEvents | app/services/messages.py:294-297 | and of those there are no more than end-of-partition events |
| Tail.Follow | app/services/messages.py:344-387 | the tail's loop is its state machine, for any turns |
| Tail.TailEmitsMatches | app/services/messages.py:364-381 | the tail's hits are exactly the matches among the records taken |
| Tail.TailEventsTellTheRun | app/services/messages.py:361-387 | the same for (hit* progress)* done; one heartbeat per whole batch; `done` exactly when the client stopped the tail, none after an error |
| Tail.ErrorEndsTail | app/services/messages.py:370-375 | for every run: the status is a raised error if and only if the last item taken is that broker error, and no earlier item taken is one |
| Tail.TailFetch | app/services/messages.py:364-385 | a turn that leaves the tail running takes exactly what is ready, up to 200 items; no turn takes more |
| Account.PlanIsPlanned | app/services/messages.py:196-267 | what the planner returns is what the scan's account needs: distinct partitions whose widths add up to the total |
| Account.ScanAccounts | app/services/messages.py:267-301 | for any in-order delivery, records appended meanwhile included: the window's records scanned plus what is still missing never exceed the total, and equal it without gaps; nothing is late when nothing past the ends is delivered |
| Account.ExhaustedMeansFinished | app/services/messages.py:273-282 | having scanned as many of the window's records as planned leaves nothing in any partition; without gaps the two are equivalent |
| Complete.SawWindowIff | app/services/messages.py:269-301 | in every reachable state the window's records processed are a prefix of the window, and all of it if and only if no record of the log lies between the position `remaining` stands for and the end |
| Complete.SeenWindowHits | app/services/messages.py:293-309 | and then the hits before the end are exactly the matches in the window, in order |
| Complete.FinishedSearchFindsMatches | app/services/messages.py:167-309 | a search from the earliest offset with only gaps left in a partition has found, in order, exactly the messages the partition held that satisfy every filter (as `Search.MatchesIff` says it, without the search's functions) |
| Complete.EndOfWindowIff | app/services/messages.py:273-291 | a scan reporting the end of its window has seen every record of it if and only if: after a spent budget, as many late records were scanned as the window has gaps; after an empty fetch, only gaps are left; always when nothing remained |
| Complete.EndOfWindowGapFree | app/services/messages.py:273-291 | on logs without gaps: if and only if no late record was scanned, when the budget was spent, or nothing remained, when it was not |
| Complete.LateRecordLooksFinished | app/services/messages.py:269-301 | a concrete run in which a record appended meanwhile uses up the budget: the end of the window is reported, one of two partitions unread |
| Complete.TrailingGapIsSeen | app/services/messages.py:280-291 | a concrete run that sees its whole window although a record still counts as remaining, the partition ending in a gap |
| Complete.QuietBrokerLooksFinished | app/services/messages.py:288-291 | whenever a window holds records, a broker that answers the first fetch with nothing makes the scan report the end of the window with none of them seen |
| Complete.NothingInWindowIff | app/services/messages.py:259-264 | "nothing in the selected window" is reported exactly when the total or the scan limit is 0 and the other not negative; no offset is planned if and only if the total is 0, and no record if and only if all planned offsets are gaps; without gaps these agree |
| Complete.ZeroLimitLooksEmpty | app/services/messages.py:259-264 | with a scan limit of 0 every scan reports so, whatever its window holds |
| Complete.ScanThenTail | app/services/messages.py:241-387 | a scan with only gaps left in a partition and a tail starting at its end see a prefix of the log exactly once, and their hits concatenated are its matches (the scan's up to the end, if it was given late records) |
| Complete.EarliestScanThenTail | app/services/messages.py:212-341 | from the same watermarks, that prefix starts with everything the partition held |
| Complete.PurgedTopicScansNothing | app/services/messages.py:259-264 | after an uninterrupted purge every scan ends at once with nothing in the window |
| Groups.GroupTotalLag | app/services/groups.py:303-308 | the sum of the lags over the group's commits (`TotalLagSnoc` says what each adds), or None when the group is unknown or a dead shell |
| Groups.TotalLagSnoc | app/services/groups.py:43-75 | one more commit adds the distance to its partition's end, or nothing if it is negative |
| Groups.ResolveTargets | app/services/groups.py:181-231 | the offset each partition is reset to, or the failing check: a missing timestamp or offset, an offset for several partitions, or one outside the watermarks |
| Groups.CheckReset | app/services/groups.py:234-275 | targets only if the broker is writable, the group known and empty, the topic and any given partition there and the offset within the watermarks; each refusal says which of these fails |
| Groups.ResetOffsets | app/services/groups.py:234-300 | a reset is refused exactly for the first failing check (read-only, group, state, topic, partition, timestamp, offset), and then changes nothing; a success reports the given partition alone or all in ascending order, with watermarks and target, commits exactly those, and leaves every other commit of every group |
| GroupTheorems.TopicLagByPartition | app/services/groups.py:55-75 | a topic's lag is the sum of its partitions' lags, in any order of commits |
| GroupTheorems.UpsertAllLag | app/services/groups.py:277-300 | committing offsets for some partitions trades exactly those partitions' lags |
| GroupTheorems.WholeTopicReset | app/services/groups.py:181-300 | a whole-topic reset leaves the distance from targets to ends as the topic's lag, and the rest of the group's lag and other topics' commits as they were |
| GroupTheorems.ResetAgreesWithPlan | app/services/groups.py:181-300 | that lag is the total a scan started the same way plans, for earliest also the topic count, for latest 0 |
| Purge.PurgeKeepsOnlyLateRecords | app/services/admin.py:142-156 | in every interleaving with producers a completed purge leaves exactly the records appended after its read, and returns exactly the watermark span removed |
| Purge.ReadWatermarks | app/services/admin.py:142-151 | the first loop collects every high and adds up the distances between the watermarks |
| Purge.DeleteRecords | app/services/admin.py:153-155 | the second loop deletes every partition up to the high read for it |
| Purge.PurgeTopic | app/services/admin.py:125-156 | refused in this order: read-only cluster, a name beginning with two underscores, an unknown topic; otherwise, uninterrupted, it empties the topic, returns its count and changes nothing else |
| Purge.UninterruptedPurgeEmpties | app/services/admin.py:142-156 | without appends, every order of the steps that completes leaves the logs and the count `PurgeTopic` does |
| Purge.PurgeStepsEmpty | app/services/admin.py:142-156 | all reads and then all deletions is such an order |
| Purge.PurgedTopicIsEmpty | app/services/admin.py:126-131 | afterwards the topic count is 0 and every plan is empty |
| Registry.SchemaRegistry.SchemaById | app/services/schema_registry.py:78-101 | one call: a cached answer, or the fetched one, which is then cached; no wrong schema enters |
| Registry.SequentialCalls | app/services/schema_registry.py:78-101 | over a run of calls each id is fetched at most once and its answer never changes |
| Registry.CallAlone | app/services/schema_registry.py:78-101 | one caller's uninterrupted steps leave the cache, return the answer and count the fetch that `SchemaById` does |
| Registry.CacheIsSound | app/services/schema_registry.py:78-101 | under any interleaving of any callers, everything cached or returned for an id is None or the registry's schema |
| Registry.FinalIffSettled | app/services/schema_registry.py:1-101 | a cached answer can never change again if and only if no caller that missed it is about to store a different one |
| Registry.RaceForgetsSchema | app/services/schema_registry.py:84-101 | a concrete interleaving in which a cached schema is replaced by None |
| Registry.ExclusiveCallsFetchOnce | app/services/schema_registry.py:78-101 | while calls for one id do not overlap, each id is fetched at most once and cached answers do not change |
| Registry.ClientTable.RegistryFor | app/services/schema_registry.py:42-150 | one client per url and credentials, configured with them (trailing slashes dropped), the same one every time, none without a url |
| Payload.PlainDisplayIsLossless | app/services/decode.py:37-51 | without a registry every payload is recovered from its display, shown as text exactly when it is UTF-8 and as null exactly when it is missing |
| Payload.HeaderBytes | app/services/encode.py:13-14 | the header is a zero and the id, highest byte first |
| Payload.SchemaIdIff | app/services/decode.py:42-63 | a payload is shown under a schema id exactly when it begins with that id's header and the registry has the schema; any other is shown as without a registry |
| Payload.FailureIsSaid | app/services/decode.py:66-79 | a body that does not decode against its schema is shown as that failure, with the schema id, as binary |
| Payload.UnknownKindIsLossless | app/services/decode.py:74-75 | under a schema of any other kind the body is recovered from its display |
| Payload.HeaderParts | app/services/encode.py:13-14 | the header's id and body are read back by the decoder, for ids of four bytes |
| Payload.EncodeFieldIff | app/services/produce.py:114-145 | a field is encoded exactly when its text is JSON and, for Avro, the schema parses and the value fits; header, body and named encoding of a success, and which check each refusal means |
| Payload.JsonFramingRoundTrip | app/services/encode.py:36-42 | a value encoded against a JSON schema is shown under that id with the same JSON value |
| Payload.AvroFramingRoundTrip | app/services/encode.py:17-33 | the same for Avro |
| Payload.ProtobufFraming | app/services/decode.py:71-81 | a framed protobuf message behind any plain-varint count and indexes is shown as the walk of its bytes, or with the walk's error |
| Payload.ProtobufFramingRoundTripIff | app/services/decode.py:71-188 | so an encoded tree is shown as that tree if and only if the classifier's guesses are right for it |
| Payload.EncodingNamedIffAvroOrJson | app/services/produce.py:135-145 | the encoding named when producing is the one shown if and only if the latest schema is Avro or JSON |
| CachedPayload.PayloadDecoder.DecodeAvro | app/services/decode.py:86-93 | decoding through the Avro cache and the cache afterwards |
| CachedPayload.PayloadDecoder.Decode | app/services/decode.py:37-81 | decoding through both caches and what they hold afterwards |
| CachedPayload.AnswerAll | app/services/decode.py:84-93 | a run of Avro decodings through the cache gives the specified answers and cache |
| CachedPayload.CachedAvroRightIff | app/services/decode.py:26-93 | over any run of decodings from any cache, every answer is the fresh one for every reader if and only if each id means one schema throughout, texts that do not parse included |
| CachedPayload.DecodeAll | app/services/decode.py:26-93 | any run of payloads from any clusters, each id meaning one schema, is shown through all caches as decoding each afresh would show it |
| CachedPayload.OneRegistryOneSchema | app/services/decode.py:26-93 | against one registry each id means one schema, and the Avro cache stays that registry's |
| CachedPayload.TwoRegistries | app/services/decode.py:26-93 | two registries using one id differently: the second payload is read with the first schema, and shown rightly if and only if the texts happen to agree; never when its own schema does not parse |
| Headers.ParseHeaders | app/services/produce.py:26-37 | the loop over the lines returns the headers, or the number of the first line without a name |
| Headers.StripIff | app/services/produce.py:30 | stripping leaves what lies, trimmed, between white space |
| Headers.LineTells | app/services/produce.py:30-36 | one line: a blank one is ignored, one without a colon is a name with an empty value, else the first colon parts name and value, both stripped, and an empty name is refused |
| Headers.ParseLineByLine | app/services/produce.py:29-36 | several lines: the headers of the first and then of the rest; the first line without a name is the one reported |
| Headers.ParseFailsIff | app/services/produce.py:29-35 | it fails with a line number exactly when that line is the first whose first visible character is a colon |
| Headers.PrintParseIff | app/templates/produce.html:92-94 | a list survives being printed and parsed if and only if its headers are trimmed, without line breaks, with non-empty colon-free names |
| Headers.ParsedSurvivesPrinting | app/services/produce.py:26-37 | whatever parses, printed and parsed again, is unchanged |

## Left out

- Kafka, librdkafka, asyncio and thread pools: the broker is its logs and what it delivers; a scan or tail runs for as many turns as it is given.
- Batches larger than asked for: `consume` returns at most what was asked, as its contract says.
- A group that gains members between the check and the commit, and per-partition errors from the broker: a commit that passed the checks succeeds.
- Retention, a second purge or a failing deletion during a purge.
- Deleted topics under a group's commits: every commit is for a partition that exists.
- Confluent's zigzag encoding of message indexes: the code reads plain varints.
- Lone surrogates in Python strings, which UTF-8 cannot encode.
- Digits other than ASCII in path segments, whose `isdigit` is wider than `int`.
- Python's recursion limit, which a deeply nested protobuf message can reach.
- HTTP errors and odd replies of the registry beyond "schema or None", and registering a schema before encoding.
- The builder of a displayed message from a raw one, other than its key and value: timestamps, sizes and header values.
- Creating and deleting topics, adding partitions, editing configurations, fetching one message and producing: guarded calls that pass through to the broker.
- Authentication, CSRF protection, auditing, settings, routers and templates.
