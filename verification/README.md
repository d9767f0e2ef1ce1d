# A model of the indexing cycle, the delivery bridge and their parsers

Conexus keeps a search index beside the project's texts, and a bridge that carries nudges from its
delivery channel into running sessions. This project models the parts of both where state, time and
partial failure meet, and proves what they keep.

* **The indexing cycle** (`RagIndexing`, `RagWatermarks`, `RagStamps`, `RagRuns`, `RagMatching`, `RagIndexer`). A cycle reads the
  recorded hashes and the two watermarks, scans the markdown files and the context table, deletes the
  rows of what changed, chunks and embeds it in batches of 50 of which any may fail, inserts what
  embedded, records hashes of what embedded whole, and advances the watermarks, capped below the
  earliest failure. `RagIndexing` gives the writes of a cycle as a function of what it read and proves
  what the whole list of writes does to each source. `RagRuns` is a state machine in which edits, file
  changes and the cycle's single database calls interleave and the cycle may be abandoned between any
  two of them, or between the two statements of one. `RagMatching` says over which runs a matching hash
  can be relied on, and gives the run on which it misleads. `RagIndexer` is the cycle as it runs, loop by loop, proved to issue exactly those writes,
  or the first of them, and what the failing one left, when the database fails.
* **The delivery bridge** (`Routing`, `Delivery`, `Reconcile`, `Sse`, `Toast`, `Render`). Which view a
  nudge is injected into and how a refusal corrects the choice; which delivery tasks the reconcile loop
  holds and which guards it keeps; the event splitter of the delivery stream; when the operator is told;
  and the lines a pane shows.
* **Calls and queues** (`JsonRpc`, `Hub`). The call correlation over one pipe and the hubs with bounded
  queues, as state machines whose steps interleave freely, with the classes that take those steps.
  `Hub` covers both hubs: a push reaches one agent's subscribers, a publish reaches everyone's.
* **Text and time** (`Calendar`, `Iso8601`, `Redact`, `JsonDepth`, `ForwardingHeader`). The day-count
  conversion against the Gregorian calendar of Appendix C of RFC 3339, the timestamp of its section 5.6,
  the log redactor, the JSON nesting pre-scan against the grammar of RFC 8259, and the signed operator
  header.
* **The session registry** (`Registry`). The sweep that mirrors the registry file into the session table.

`Strings`, `Text` and `Wrappers` hold what several modules share.

The database, the clock, the network and the embedding service are parameters: an abstract table, explicit
times, and, for each call, whether it succeeds. `Env` holds the chunker, the hash and the embedding
as functions about which nothing is assumed, except where a lemma asks for an injective hash; the MAC is
such a function too, with results that are non-empty and free of dots.

`dafny verify dfyconfig.toml` verifies the whole project.

## Where the code and its comments differ

The model follows the code.

* A source whose re-embedding fails loses its rows and keeps its old hash
  (`rust/conexus-backend/src/background_tasks.rs:650-659`, `744-753`). When its text returns to what
  the old hash was taken of, it counts as unchanged and is not embedded again, ever, while it is not
  edited (`RagMatching.RevertedSourceStaysStale`, and as one run from the start `RagMatching.StaleRun`).
  `RagMatching.MatchingHashMeansMatchingRows` proves that a matching hash can be relied on as long as no
  edit takes a source back to its recorded text while it is being re-embedded or has failed;
  `RagMatching.MovingTextsMatch` does so from a condition on each edit alone. The converse does not hold:
  what survived of the failed text can happen to be the chunks of the recorded one.
* The default context watermark sorts after every fraction of second 0 of 1970, a stored one of that
  second does not. `RagWatermarks.FailureFreeCycleIsFixpoint` has the exact condition under which this
  makes a second cycle find work.
* `aoe-bridge/src/bridge.rs:904-907` says that the detection of a wrong view reads the whole body of a
  refusal. It reads the body redacted and clipped to 200 characters, so a marker behind them, or inside
  what is redacted, is not seen and the frame is not delivered (`Delivery.AutoFrameIsDelivered`,
  `Delivery.ClippedMarker`, `Delivery.UnseenRefusalRepeats`).
* `aoe-bridge/src/bridge.rs:459-469` says that a removed row's guards are dropped so that a row added
  again is asserted again. They are dropped only when the session's task was still held: a row removed
  after its session had stopped keeps them (`Reconcile.GuardsDroppedIff`,
  `Reconcile.RemovedAfterStopIsNotReasserted`).
* `aoe-bridge/src/bridge.rs:581-582` says that a session's tool layer tracks the configuration. A clear
  the host refuses is forgotten, not retried (`Reconcile.RefusedClearIsNotRetried`);
  `Reconcile.LayerTracksRouteIff` says exactly when the layer follows.
* `aoe-bridge/src/status.rs:284-286` says that a session flapping on every frame produces one toast. The
  cooldown ends with every success, so a session that fails and recovers by turns is toasted about at
  every outcome (`Toast.FlappingIsNeverSilent`).
* `rust/conexus-auth/src/forwarding_header.rs:94-131` accepts an expiry written with a plus sign, which
  no signer prints (`ForwardingHeader.PlusSignAccepted`).
* `aoe-bridge/src/bridge.rs:787-788` says that a bare carriage return carries no meaning in a field. Section
  9.2.6 of the HTML Standard lets one end a line; here it is dropped, so a text arrives less its carriage
  returns (`Sse.SentTextsArrive`).
* A session whose first registration fails is known from then on, so no later sweep inserts its row
  while it stays in the registry (`Registry.FailedRegistrationSticks`).

## Model

| member | source | states |
|---|---|---|
| RagIndexing.SourceFailedIff | rust/conexus-backend/src/background_tasks.rs:664-716 | a source counts as failed exactly when some batch holding one of its chunks failed, although batches of 50 straddle sources |
| RagIndexing.ProcessedSource | rust/conexus-backend/src/background_tasks.rs:647-757 | after all writes of a cycle a fully embedded source has exactly its non-blank chunks in order and its new hash; a failed one has the chunks whose batch succeeded and its old hash |
| RagIndexing.UntouchedSource | rust/conexus-backend/src/background_tasks.rs:621-757 | rows and hash of every source the cycle does not process are what they were |
| RagIndexing.RowsAfterCycle | rust/conexus-backend/src/background_tasks.rs:650-741 | the rows of any source after the cycle, as its old rows less the deletion plus the chunks inserted for it |
| RagIndexing.FinalParts | rust/conexus-backend/src/background_tasks.rs:647-785 | which part of the database each phase of a cycle decides: rows, hashes, watermarks |
| RagIndexing.NonBlankOne | rust/conexus-backend/src/background_tasks.rs:675-677 | a chunk is embedded exactly when it holds a character other than white space |
| RagIndexing.NonBlankConcat | rust/conexus-backend/src/background_tasks.rs:672-683 | chunk by chunk, each kept or dropped on its own, the rest in order |
| RagIndexing.FullRowsAre | rust/conexus-backend/src/background_tasks.rs:720-741 | a whole source has one row for each such chunk, in order, with that chunk's own vector |
| RagWatermarks.CapBounds | rust/conexus-backend/src/background_tasks.rs:816-836 | the capped watermark lies between the old one and the newest time, is below every failure of its type or unmoved, strictly below all of them if the old one was, and reaches the newest time without failures |
| RagWatermarks.CappedBounds | rust/conexus-backend/src/background_tasks.rs:552-645 | the watermark a cycle computes never moves back, never passes the newest time scanned, and stays below each failed source or in place |
| RagWatermarks.CappedBelowFailures | rust/conexus-backend/src/background_tasks.rs:758-785 | if the old watermark was below every source that failed, so is the stored one after the cycle |
| RagWatermarks.CappedIs | rust/conexus-backend/src/background_tasks.rs:816-836 | exactly which watermark a cycle computes: without a failure of the type the newest time scanned, else the latest of the old one and the times below every failure of the sources embedded whole |
| RagWatermarks.PlanFacts | rust/conexus-backend/src/background_tasks.rs:552-628 | what a scan hands to the rest of the cycle: distinct sources, each with the text and time it was read with; every row above the watermark that is not recorded, and, unless files are switched off, every file that is not, with its text, time and hash; no file when they are |
| RagWatermarks.CycleIndexesAll | rust/conexus-backend/src/background_tasks.rs:521-794 | when no batch fails, every file, unless files are switched off, and every row above the watermark ends with its text's hash and, unless it was recorded before, exactly the rows of its text |
| RagIndexing.ScanOrder | rust/conexus-backend/src/background_tasks.rs:552-628 | a scan holds the files in their order, unless they are switched off, and behind them the rows above the watermark in theirs; the work is what of it is not recorded |
| RagIndexing.ScanOne | rust/conexus-backend/src/background_tasks.rs:594-616 | a row is scanned exactly when it is above the watermark, as text, second and hash of its text |
| RagIndexing.ScanConcat | rust/conexus-backend/src/background_tasks.rs:594-617 | row by row, in order |
| RagIndexing.TodoOne | rust/conexus-backend/src/background_tasks.rs:622-628 | a source is processed exactly when its recorded hash is not the one of its text |
| RagIndexing.TodoConcat | rust/conexus-backend/src/background_tasks.rs:622-628 | source by source, in order |
| RagIndexing.BatchesOfFifty | rust/conexus-backend/src/background_tasks.rs:686-694 | batches hold fifty chunks each |
| RagStamps.AtOrBelowIsTextual | rust/conexus-backend/src/background_tasks.rs:594-597 | comparing a row's stamp with the watermark as texts, the default one included, is comparing seconds and then asking for a fraction |
| RagWatermarks.FailureFreeCycleIsFixpoint | rust/conexus-backend/src/background_tasks.rs:521-794 | after a cycle without failures a second one over the same sources changes no row, no hash and no watermark, whatever its batches would do, exactly unless no watermark was stored and an unrecorded row lies in the first second of 1970 with none after it |
| RagRuns.RunKeepsInv | rust/conexus-backend/src/background_tasks.rs:521-869 | the invariant of the state machine holds on every run of edits, scans, single and half-done writes, and aborts |
| RagRuns.WatermarkCoversOnlyRecordedRows | rust/conexus-backend/src/background_tasks.rs:592-869 | on every such run, every context row at or below the stored watermark has its current text's hash recorded |
| RagRuns.UnrecordedRowIsReprocessed | rust/conexus-backend/src/background_tasks.rs:758-785 | so a row whose embedding failed, or whose cycle was abandoned, is in the work of whichever cycle lists the table next |
| RagRuns.UnrecordedFileIsReprocessed | rust/conexus-backend/src/background_tasks.rs:562-590 | on every run a file that the scan has read and that is not recorded is in the work of the listing, as it was read |
| RagRuns.UndisturbedRowsMatchHash | rust/conexus-backend/src/background_tasks.rs:621-757 | on every run, a source whose rows were not taken away since its hash was recorded has exactly the rows of the text that hash belongs to, given an injective hash |
| RagRuns.WatermarksGrow | rust/conexus-backend/src/background_tasks.rs:842-869 | over every run neither watermark moves back or passes the newest time written |
| RagRuns.WritePhaseCompletes | rust/conexus-backend/src/background_tasks.rs:647-785 | a write phase that nothing interrupts is a run, and ends with every write applied and the machine idle |
| RagRuns.DirtyAfterCycle | rust/conexus-backend/src/background_tasks.rs:650-757 | after a completed cycle exactly the failed sources are left with rows that disagree with their hash, among those processed |
| RagRuns.CompletedCycle | rust/conexus-backend/src/background_tasks.rs:521-794 | from any reachable listing step, and with any edits between its writes, the cycle run to its end does one of three things to every source: embeds it whole and records its hash, keeps the surviving chunks under the old hash, or leaves it alone |
| RagRuns.CycleReachesItsEnd | rust/conexus-backend/src/background_tasks.rs:647-785 | however edits of rows and files come between its writes, a cycle that reaches its end has applied them all, each once and in order |
| RagRuns.CompletedWatermark | rust/conexus-backend/src/background_tasks.rs:758-869 | over such a cycle a stored watermark below a failed source's time stays below it |
| RagMatching.MatchingHashMeansMatchingRows | rust/conexus-backend/src/background_tasks.rs:621-757 | on every run in which no edit takes a source that is being re-embedded or has failed back to its recorded text, a row or file whose current text has the recorded hash has exactly the index rows of that text |
| RagMatching.MovingTextsMatch | rust/conexus-backend/src/background_tasks.rs:621-757 | the same from a condition checked at each edit alone: it leaves the text as it is or writes one whose hash is not the recorded one |
| RagMatching.RecordedSourceIsLeftAlone | rust/conexus-backend/src/background_tasks.rs:621-659 | a source whose current text is recorded keeps the rows it has through all cycles, stops and failures, for as long as it is not edited |
| RagMatching.RevertedSourceStaysStale | rust/conexus-backend/src/background_tasks.rs:744-753 | on every reachable cycle in which a source fails and whose text is the recorded one again at its end, hash and text go on matching while the rows stay what survived of the text that failed |
| RagMatching.StaleRun | rust/conexus-backend/src/background_tasks.rs:744-753 | one such run from the start, with an injective hash: the text is recorded and has a chunk, and the index has none |
| RagIndexer.Store.Issue | rust/conexus-db/src/rag_repository.rs:213-334 | one database call of one or two autocommitted statements: applied in full, not at all, or up to its second statement |
| RagIndexing.OwnRowsBared | rust/conexus-db/src/rag_repository.rs:263-279 | a deletion that stops half-way leaves the source its chunks and none of their vectors |
| RagIndexer.ScanRowList | rust/conexus-backend/src/background_tasks.rs:592-617 | the context scan selects the rows above the watermark and finds the newest time |
| RagIndexer.FilterUnchanged | rust/conexus-backend/src/background_tasks.rs:621-628 | the filter keeps exactly the sources whose recorded hash differs |
| RagIndexer.ChunkSources | rust/conexus-backend/src/background_tasks.rs:672-683 | the chunk list holds every non-blank chunk of every source, in order, with its owner |
| RagIndexer.EmbedAll | rust/conexus-backend/src/background_tasks.rs:685-706 | a chunk has a vector exactly when its batch of 50 succeeded |
| RagIndexer.FlagFailures | rust/conexus-backend/src/background_tasks.rs:711-716 | the flags mark exactly the failed sources |
| RagIndexer.RunIndexingCycle | rust/conexus-backend/src/background_tasks.rs:521-794 | the cycle as it runs issues exactly the specified writes in order, or the first of them and what the failing one left when the database starts to fail, and reports success only in the first case; reported, and with no batch failing, it has indexed every file and every row above the watermark |
| RagIndexer.ReportCounts | rust/conexus-backend/src/background_tasks.rs:787-793 | a report counts the sources scanned and those processed, the chunks embedded and the sources of which a chunk was not |
| Strings.LowerIff | aoe-bridge/src/observe.rs:269 | lowering forgets the case of ASCII letters, told by their codes, and nothing else |
| Strings.WhiteIff | aoe-bridge/src/observe.rs:277 | the 25 code points that are white space |
| Strings.TrimIff | aoe-bridge/src/config.rs:322 | trimming strips white space from both ends and nothing else |
| Strings.LowerContainsIff | aoe-bridge/src/mode.rs:96-100 | a lowered text holds a word exactly when the text holds it in some case |
| Calendar.CivilDateIsValid | aoe-bridge/src/observe.rs:345-356 | every day count, negative ones included, converts to a date that exists in the Gregorian calendar |
| Calendar.CivilEpoch | aoe-bridge/src/observe.rs:345-356 | day 0 is 1 January 1970 |
| Calendar.CivilSuccessor | aoe-bridge/src/observe.rs:345-356 | the next day count converts to the next day of the calendar |
| Calendar.CivilOrder | aoe-bridge/src/observe.rs:345-356 | later day counts convert to later dates |
| Calendar.YearOfEraCorrect | aoe-bridge/src/observe.rs:349-350 | the corrections for leap days find the year a day of the 400-year era lies in |
| Calendar.MonthOfDay | aoe-bridge/src/observe.rs:351-353 | the month index is that of the month the day lies in, for both lengths of February |
| Iso8601.FormatShape | aoe-bridge/src/observe.rs:333-343 | up to the end of year 9999 the timestamp has 20 characters, digits and separators where section 5.6 of RFC 3339 puts them; its date is the one of the day count, a date of the calendar, and its hour, minute and second are in range and add up to the seconds of the day |
| Iso8601.FormatOrder | aoe-bridge/src/observe.rs:333-343 | timestamps compare as strings the way their times compare |
| Iso8601.FormatInjective | aoe-bridge/src/observe.rs:333-343 | distinct seconds have distinct timestamps |
| Redact.Run | aoe-bridge/src/observe.rs:268-296 | the scan ends and its output is the redaction, which SecretIsMasked and KeylessFrontIsCopied determine |
| Redact.SkipSecret | aoe-bridge/src/observe.rs:301-313 | the secret is skipped up to its first end character and masked when it is not empty |
| Redact.KeyAtIff | aoe-bridge/src/observe.rs:249-281 | a text begins with a key exactly when its first characters are, up to the case of ASCII letters, "bearer " or one of the six parameter names |
| Redact.EndsIff | aoe-bridge/src/observe.rs:277-286 | a secret ends at white space, after a parameter name also at one of six delimiters |
| Redact.SecretIsMasked | aoe-bridge/src/observe.rs:268-313 | a key in any case with its run of secret characters becomes the key and three stars, or the key alone when the run is empty, and redaction goes on behind the run |
| Redact.BearerIsMasked | aoe-bridge/src/observe.rs:274-279 | so a bearer credential, whatever the case of the word, is replaced by three stars |
| Redact.KeylessFrontIsCopied | aoe-bridge/src/observe.rs:290-293 | text in which no key begins is copied |
| Redact.CutExists | aoe-bridge/src/observe.rs:249-313 | every text cuts into single characters and keys with their secrets |
| Redact.RedactionMasksRuns | aoe-bridge/src/observe.rs:268-313 | the redaction is that cut with every non-empty secret replaced by three stars, and nothing else changed |
| Redact.UnchangedIff | aoe-bridge/src/observe.rs:268-313 | a text comes back unchanged exactly when each of its secrets is empty or already three stars |
| Redact.KeyFreeUnchanged | aoe-bridge/src/observe.rs:268-313 | a text that holds no key comes back unchanged |
| Redact.RedactIdempotent | aoe-bridge/src/observe.rs:268-313 | redacting twice is redacting once |
| Redact.RedactionAddsNoWord | aoe-bridge/src/observe.rs:268-313 | a word without stars that is in the redacted text was in the text, letter for letter |
| JsonDepth.ExceedsMaxNestingDepth | rust/conexus-backend/src/json_sanitize.rs:104-132 | the loop answers what the scanner's transitions give on the whole text |
| JsonDepth.ScanAgreesWithTree | rust/conexus-backend/src/json_sanitize.rs:49-132 | on every text derived from a JSON tree, with any white space and any string escapes, the answer is true exactly when the tree's containers nest deeper than 200 |
| JsonDepth.ScanString | rust/conexus-backend/src/json_sanitize.rs:109-121 | a string literal, whatever it escapes, leaves the depth as it was |
| JsonDepth.StrayCloseIgnored | rust/conexus-backend/src/json_sanitize.rs:127 | a closing bracket without an opening one counts for nothing |
| ForwardingHeader.VerifySigned | rust/conexus-auth/src/forwarding_header.rs:77-132 | verifying a signed header gives back its operator and role exactly when the operator is non-empty and dot-free and now < expiry <= now + window, the expiry being the 64-bit sum of now and lifetime at signing |
| ForwardingHeader.ExpiryIs | rust/conexus-auth/src/forwarding_header.rs:78 | the expiry is the sum of time and lifetime, less 2^64 once it passes that |
| ForwardingHeader.AcceptedIff | rust/conexus-auth/src/forwarding_header.rs:94-132 | a header is accepted for an operator and role exactly when it is four non-empty fields whose MAC is that of the operator, role and parsed expiry, within the window |
| ForwardingHeader.MessageParts | rust/conexus-auth/src/forwarding_header.rs:61-64 | what is under the MAC: operator, role word and decimal expiry, between dots |
| ForwardingHeader.MessageIsInjective | rust/conexus-auth/src/forwarding_header.rs:63-64 | for dot-free operators it is the same only for the same operator, role and expiry |
| ForwardingHeader.CodeBindsAll | rust/conexus-auth/src/forwarding_header.rs:94-132 | for an injective MAC a header accepted with the code of a header signed for an operator, role and expiry is accepted as those and carries that expiry |
| ForwardingHeader.ExpiryCannotBeRewritten | rust/conexus-auth/src/forwarding_header.rs:94-132 | so a signed header with another expiry written into it is refused |
| ForwardingHeader.CanonicalIsSigned | rust/conexus-auth/src/forwarding_header.rs:77-132 | an accepted header whose third field is a number in shortest form is what signing prints for that operator, role and expiry |
| ForwardingHeader.PlusSignAccepted | rust/conexus-auth/src/forwarding_header.rs:112-118 | one written with a plus sign is accepted too, and signing never prints it |
| ForwardingHeader.ParsePrinted | rust/conexus-auth/src/forwarding_header.rs:77-112 | parsing a printed 64-bit number gives it back |
| Text.DecimalIsShortest | rust/conexus-auth/src/forwarding_header.rs:80 | a printed number has no leading zero |
| ForwardingHeader.SplitJoins | rust/conexus-auth/src/forwarding_header.rs:100-103 | splitting at dots gives dot-free parts that join back to the text |
| Routing.ResolveRoutes | aoe-bridge/src/config.rs:321-367 | the loop yields one route for each usable row, in order, and none without a base |
| Routing.UsableIff | aoe-bridge/src/config.rs:328-333 | a row counts exactly when its session id, token and project each hold a character that is not white space |
| Routing.RowPinsMode | aoe-bridge/src/config.rs:335-364 | a row that says terminal or structured, in any case and with white space around it, has that mode and is not automatic; any other is, with the mode of its session's record or terminal |
| Routing.RowGivesAddresses | aoe-bridge/src/config.rs:248-255 | session and token are the row's; endpoint and tool url are the base, stripped, then api or mcp, then the row's project, stripped; the url is there exactly when the row exposes the tools |
| Routing.ViewModeIff | aoe-bridge/src/mode.rs:40-46 | a record states a view exactly by one of two words, in any case |
| Routing.InferAutoModeIff | aoe-bridge/src/config.rs:268-278 | without a stated view a record means structured exactly when a worker is there or tool or status hold one of four words, in any case |
| Routing.WhoDecides | aoe-bridge/src/config.rs:299-313 | a pin decides alone, then the stated view, then what was learned, then the other signals, then the resolved route |
| Routing.OnlyExposedRowsSwitch | aoe-bridge/src/config.rs:207-229 | a session is switched exactly for a row that exposes the tools while the setting is on; the switch makes an automatic route structured and changes nothing else of it |
| Routing.FingerprintIff | aoe-bridge/src/config.rs:238-243 | a fingerprint changes exactly when address, token, or base or token of the host do, given that the first three hold no bar |
| Routing.RoutesForMembers | aoe-bridge/src/config.rs:321-367 | the routes are exactly those of the usable rows, live exactly when the session list has the session |
| Routing.RoutesForOne | aoe-bridge/src/config.rs:327-365 | a usable row yields its route, any other none |
| Routing.RoutesForConcat | aoe-bridge/src/config.rs:327-365 | row by row and in order |
| Routing.RoutesForDistinct | aoe-bridge/src/config.rs:321-367 | rows with distinct session ids give routes with distinct ones |
| Delivery.RuntimeModes.LivenessFor | aoe-bridge/src/bridge.rs:138-160 | a read serves the fresh cache, else refetches, and keeps the old list when the fetch fails |
| Delivery.CacheUse | aoe-bridge/src/bridge.rs:128-160 | a list read less than five seconds ago is used, an older one replaced by what comes back and kept when nothing does |
| Delivery.RuntimeModes.Handle | aoe-bridge/src/bridge.rs:802-897 | the attempts of one frame, the last answer and all that is learned are those of the specification |
| Delivery.AutoFrameIsDelivered | aoe-bridge/src/bridge.rs:802-897 | before a host that accepts the session's view and names the other as wrong, and whatever is cached or learned, a frame for an automatic row is delivered exactly when the right mode was chosen at once or the refusal is visible; in one attempt or two, the second teaching the view; an invisible refusal changes nothing |
| Delivery.PinnedFrame | aoe-bridge/src/bridge.rs:216-230 | a pinned row makes one attempt, in its pin, and learns nothing |
| Delivery.PinnedRowAttempts | aoe-bridge/src/config.rs:335-349 | for every usable row of the settings that pins a mode there is a route on which every frame makes its one attempt in that mode, whatever the view, the cache and the answers |
| Delivery.AutomaticRowDelivers | aoe-bridge/src/bridge.rs:802-897 | for every usable row that pins none there is a route on which every frame is delivered, given visible refusals |
| Delivery.AtMostOneRefusal | aoe-bridge/src/mode.rs:77-90 | over a whole run in which the view stays as it is, no session list contradicts it and refusals are visible, the host names the mode wrong for at most one attempt on the session, and for none once the view is learned |
| Delivery.MarkerSeenIff | aoe-bridge/src/bridge.rs:1027-1033 | a marker is found in the captured body exactly when it stands in the redacted and trimmed body before the clip |
| Delivery.CapturedBody | aoe-bridge/src/bridge.rs:1027-1033 | what is captured of a body: the redacted and trimmed text, or its first 200 characters and an ellipsis, or a text that says it was blank |
| Delivery.ClassifyIff | aoe-bridge/src/mode.rs:77-90 | an answer is taken for a wrong mode exactly when it has the status of that refusal and its marker is visible |
| Delivery.RefusalsAre | aoe-bridge/src/mode.rs:77-84 | the two refusals by status and words |
| Delivery.OnlyRefusalsCorrect | aoe-bridge/src/bridge.rs:802-897 | a mode is given up only when the host's body, as sent, named it wrong: neither redaction nor trimming nor clipping makes a marker |
| Delivery.ClippedMarker | aoe-bridge/src/bridge.rs:1027-1033 | a body of 200 letters with the marker behind them is a refusal that is not visible |
| Delivery.UnseenRefusalRepeats | aoe-bridge/src/bridge.rs:802-897 | a refusal that is not visible is met again by every one of any number of frames |
| Delivery.PlainRefusalIsSeen | aoe-bridge/src/status.rs:640-652 | so in a short body that holds no key a marker is visible exactly when it was sent |
| Reconcile.Bridge.RunPass | aoe-bridge/src/bridge.rs:266-487 | one pass of the loop turns everything held into what the specification says |
| Reconcile.Bridge.EnsureSessionMcp | aoe-bridge/src/bridge.rs:583-635 | which layer is asserted or cleared and which guard is kept, for either answer of the host |
| Reconcile.Bridge.EnsureAcpMode | aoe-bridge/src/bridge.rs:651-691 | the host is asked once, the outcome remembered, a switched session's mode learned |
| Reconcile.HeldTasksAreLiveRoutes | aoe-bridge/src/bridge.rs:398-470 | after an enabled pass the tasks are exactly the live routes, each under its route's fingerprint; an unchanged fingerprint keeps the very task, a changed one gets a new one, in structured mode if the host granted the switch and the row is not pinned; the switch is asked for once and teaches the mode when granted |
| Reconcile.ModeFlipKeepsFingerprint | aoe-bridge/src/config.rs:222-243 | no change of mode changes a fingerprint |
| Reconcile.GuardsDroppedIff | aoe-bridge/src/bridge.rs:427-470 | nothing is sent about a session without a live route, and it loses its guards exactly when its row is gone and its task was still held |
| Reconcile.RemovedAfterStopIsNotReasserted | aoe-bridge/src/bridge.rs:459-469 | for a row removed after its session stopped and added back with the same url and token, no call to the host is made from the stop on |
| Reconcile.LayerTracksRouteIff | aoe-bridge/src/bridge.rs:577-635 | setting up a session leaves the host's layer as the route asks exactly when it was so before or the host accepts a call that is made |
| Reconcile.LayerPrintIff | aoe-bridge/src/bridge.rs:586-587 | two layers count as the same exactly when url and token are, given urls without a bar |
| Reconcile.RefusedClearIsNotRetried | aoe-bridge/src/bridge.rs:611-633 | after a refused clear, one call, every later set-up of that route makes no call and the tools stay |
| Reconcile.PassesKeepConsistent | aoe-bridge/src/bridge.rs:266-487 | over every run of passes a guard entry is the layer the host last accepted, no two sessions share a task, and a disabled pass leaves nothing held or learned |
| Reconcile.DistinctSettingsDistinctRoutes | aoe-bridge/src/config.rs:321-367 | distinct session ids in the settings make the routes of a pass distinct |
| Sse.StreamOnce | aoe-bridge/src/bridge.rs:783-798 | for every way of cutting the stream into chunks, the payloads handed over and the text left waiting are those of the stream read at once |
| Sse.ExtractSseData | aoe-bridge/src/inject.rs:77-91 | the payload is the data lines joined by line feeds, none when there are none |
| Sse.DataOfIff | aoe-bridge/src/inject.rs:80-84 | a line carries data exactly when it begins with the field name, and its data is what follows the colon less one space |
| Sse.BlocksConcat | aoe-bridge/src/bridge.rs:783-798 | more text is read as if it followed what was left of the earlier text |
| Sse.BlocksPartition | aoe-bridge/src/bridge.rs:789-796 | the blocks and the rest make up the text, each block with one boundary, at its end, the rest with none |
| Sse.BlocksUnique | aoe-bridge/src/bridge.rs:789-796 | and there is no other such partition |
| Sse.SseDataOfEncoded | aoe-bridge/src/inject.rs:77-91 | a text encoded as data lines comes back whole, a comment carries nothing |
| Sse.SentTextsArrive | aoe-bridge/src/bridge.rs:783-798 | texts sent as events, with either line end and comments in between, arrive in order and in full less their carriage returns, however the stream is cut, and nothing is left over |
| Toast.SessionObs.NoteInject | aoe-bridge/src/status.rs:225-249 | the new record and the notice are those of the specification |
| Toast.ObsIs | aoe-bridge/src/status.rs:225-249 | over every sequence of outcomes each is counted once, the failure count is the saturated length of the run they end in, and a time is remembered exactly while failing, that of the run's last toast |
| Toast.NoticeIff | aoe-bridge/src/status.rs:289-303 | Failing is said exactly at a run's first failure and at those 900 seconds after the run's last toast, Recovered exactly at a success right after a failure |
| Toast.ToastGaps | aoe-bridge/src/status.rs:289-303 | with times that never decrease, toasts of one run are at least 900 seconds apart |
| Toast.NeverSilentForLong | aoe-bridge/src/status.rs:289-303 | at every failure the run's last toast is less than 900 seconds old or is given now |
| Toast.FlappingIsNeverSilent | aoe-bridge/src/status.rs:280-303 | a session that fails and recovers by turns is toasted about at every outcome |
| Render.SanitizeForPane | aoe-bridge/src/render.rs:164-189 | the loop yields the maximal kept runs joined by single spaces |
| Render.RunsAreKept | aoe-bridge/src/render.rs:164-189 | the runs are non-empty, hold kept characters only, and together are the field less the characters dropped |
| Render.SanitizedIsClean | aoe-bridge/src/render.rs:164-189 | no dropped character is left |
| Render.SanitizedUnchangedIff | aoe-bridge/src/render.rs:164-189 | a field comes back as it was exactly when it holds none |
| Render.SanitizedIdempotent | aoe-bridge/src/render.rs:164-189 | sanitizing twice is sanitizing once |
| Render.SanitizedAcrossGap | aoe-bridge/src/render.rs:176-186 | what stands on the two sides of dropped characters is sanitized on its own, and one space stands for all that was dropped between |
| Render.RenderSkinny | aoe-bridge/src/render.rs:201-274 | the rendering is the specified lines joined by line feeds |
| Render.RenderedLines | aoe-bridge/src/render.rs:201-274 | whatever the fields hold, splitting it at line feeds gives those lines back; one for a directive, else two and, for each list that is not empty, a title, at most ten items and one line for the others |
| Render.OnlyLineFeeds | aoe-bridge/src/render.rs:104-189 | the pane sees no control, format or selector character but the line feeds |
| Render.ControlIff | aoe-bridge/src/render.rs:168-175 | which characters are dropped, by their codes |
| Render.FrameLinesAre | aoe-bridge/src/render.rs:223-271 | which line says what: headline, then for each list its title, its first ten items in order and the number of the others, then the closing line |
| Render.HeadlineSays | aoe-bridge/src/render.rs:225-237 | which count the headline gives, by the frame's reason |
| Render.SignedReads | aoe-bridge/src/render.rs:222-233 | a count is its decimal numeral, behind a minus sign exactly when negative |
| Render.MessageLineSays | aoe-bridge/src/render.rs:241-248 | a message's line names it, its sender and its subject, in this order |
| Render.TaskLineSays | aoe-bridge/src/render.rs:257-264 | a task's line names it, its status and its title, in this order |
| Render.DirectiveLineSays | aoe-bridge/src/render.rs:202-220 | a directive's one line holds its prompt, a poke being told from a scheduled one |
| JsonRpc.RunKeepsInv | aoe-bridge/src/plugin.rs:53-82 | the invariant of calls, entries and slots holds on every interleaving |
| JsonRpc.AnswersAre | aoe-bridge/src/plugin.rs:223-243 | which lines answer a call and with what: none with a method, none without a numeric id; an error before a result, null without either |
| JsonRpc.AlwaysPossible | aoe-bridge/src/plugin.rs:53-82 | calls may begin and the writer close at any time, and lines be read whenever the last answer is handed over; only an answer whose call is parked is taken in hand |
| JsonRpc.FinishedCalls | aoe-bridge/src/plugin.rs:53-82 | a finished call returned the first answer that bears its id and was read after it parked, or an error for a closed writer or a timeout; it never sees its channel dropped |
| JsonRpc.PendingIs | aoe-bridge/src/plugin.rs:53-82 | the table of entries holds exactly the calls that have parked and are neither finished nor answered |
| JsonRpc.StrayAnswerChangesNothing | aoe-bridge/src/plugin.rs:236-244 | an answer for an id never parked, already answered or finished changes nothing |
| JsonRpc.CallIsNeverStuck | aoe-bridge/src/plugin.rs:53-75 | an unfinished call always has a step of its own to take, and it brings the call nearer its end |
| JsonRpc.StepsOnlyAdvance | aoe-bridge/src/plugin.rs:53-82 | no step sets a call back and a finished one keeps its outcome, so no answer completes two calls |
| JsonRpc.PluginConn.Begin | aoe-bridge/src/plugin.rs:54-62 | the first part of a call takes the machine's steps from the fresh id to the wait, or to the error when the writer is closed |
| JsonRpc.PluginConn.Finish | aoe-bridge/src/plugin.rs:63-74 | the last part returns the answer in the slot, else times out and takes its entry back |
| JsonRpc.PluginConn.HandleLine | aoe-bridge/src/plugin.rs:206-244 | a line from the host takes the machine's reading steps: a line with a method or a foreign id answers nobody |
| Hub.RunKeepsInv | rust/conexus-backend/src/delivery_transport.rs:70-111 | the invariant of subscribers, queues and log holds on every run, with receivers acting in the middle of a push |
| Hub.QueuesHoldWhatWasSent | rust/conexus-backend/src/delivery_transport.rs:70-111 | a queue holds at most 256 frames; every frame addressed to a subscriber was tried on its queue once, in order; and received followed by queued is made of exactly the frames the queue took, an in-order subsequence of those addressed |
| Hub.FrameMissedIff | rust/conexus-backend/src/delivery_transport.rs:96-105 | a turn of a push leaves every other queue alone and misses its own only when it is full or its receiver gone |
| Hub.PushCountsTakers | rust/conexus-backend/src/delivery_transport.rs:96-105 | a push returns exactly the number of queues that took its frame |
| Hub.PushServes | rust/conexus-backend/src/delivery_transport.rs:96-105 | a push to an agent puts the frame at the end of the queue of exactly those of that agent's subscribers whose receiver is there and whose queue holds fewer than 256 frames, and leaves every other agent's subscribers as they were; a publish does so for all |
| Hub.NewSubscriberListens | rust/conexus-backend/src/delivery_transport.rs:70-80 | a subscription gets an id nobody had and an empty open queue that the next frame for its agent goes into |
| Hub.IdsAreNeverReused | rust/conexus-backend/src/operator_events.rs:81-109 | no subscriber id is registered twice |
| Hub.ConnectedIff | rust/conexus-backend/src/delivery_transport.rs:108-111 | an agent counts as connected exactly when a subscription of its was registered and not taken back |
| Hub.SubscriberHub.Subscribe | rust/conexus-backend/src/delivery_transport.rs:70-80 | a subscription takes the machine's two steps under a fresh id |
| Hub.SubscriberHub.Unsubscribe | rust/conexus-backend/src/delivery_transport.rs:86-89 | the subscriber leaves the list, every other stays |
| Hub.SubscriberHub.Push | rust/conexus-backend/src/delivery_transport.rs:96-105 | the frame reaches exactly the agent's subscribers that can take it, no other queue changes, and their number is returned |
| Hub.SubscriberHub.Publish | rust/conexus-backend/src/operator_events.rs:115-123 | the payload reaches every subscriber that can take it |
| Registry.Monitor.CheckRegistryChanges | rust/conexus-backend/src/background_tasks.rs:246-343 | one sweep, over rows in any order and with any writes failing, has the specified effect |
| Registry.KnownIsLastListing | rust/conexus-backend/src/background_tasks.rs:246-343 | what is known is the last listing that was looked into, with or without write errors |
| Registry.TableMirrorsRegistry | rust/conexus-backend/src/background_tasks.rs:246-343 | on every run without write errors a session seen before has a row, inactive exactly when the last listing does not name it, and one audit for each time it appeared |
| Registry.SweepLeavesRowRightIff | rust/conexus-backend/src/background_tasks.rs:284-341 | with write errors: exactly when a sweep leaves a row that tells whether its session is known |
| Registry.SweptRowIs | rust/conexus-backend/src/background_tasks.rs:284-341 | every column a successful write leaves in a row, for a new session, one that stays and one that is gone |
| Registry.OtherRowsKept | rust/conexus-backend/src/background_tasks.rs:284-341 | a session neither listed nor known, or whose write fails, keeps its row |
| Registry.QuietSweeps | rust/conexus-backend/src/background_tasks.rs:248-272 | a file missing, or no newer than the last one looked into, changes nothing; one that does not read or parse only counts as looked into |
| Registry.FailedRegistrationSticks | rust/conexus-backend/src/background_tasks.rs:308-343 | a session whose registration fails stays without a row for as long as the listings name it, whatever succeeds later |

## Left out

- The removal of context rows while cycles run, and the index rows of deleted markdown files: the cycle shown never purges them.
- The early return of a cycle when the embedding table does not exist, and walking the file system: the files are a list.
- Time stamps that do not parse, and years of five digits; in the runs also context rows written before the first second after the 1970 epoch, which the default watermark counts as covered.
- Iso8601.FormatOrder: stated up to the end of year 9999; later years have five digits and no longer compare as text.
- JsonDepth.ScanAgreesWithTree: numbers and the three literals are any runs of characters outside strings that hold no quote, bracket or brace, which is more than the grammar allows.
- ForwardingHeader.VerifySigned: says nothing about the strength of the MAC or the time its comparison takes.
- Routing.RowPinsMode: lower-casing is that of ASCII letters only.
- Routing.FingerprintIff: with bars inside the parts two different routes can share a fingerprint.
- Delivery.AtMostOneRefusal: stated for a view that does not change meanwhile, a session list that does not contradict it and refusals that are visible; when the view changes, each change can cost one more refusal, and invisible ones repeat.
- Delivery.ClassifyIff: a refusal whose body cannot be read at all is not modelled; the text captured for it holds the transport error.
- RagMatching.MatchingHashMeansMatchingRows: one direction only, since what survives of a failed text may be the very chunks of the recorded one.
- Reconcile.HeldTasksAreLiveRoutes: stated for distinct session ids; with two rows for one session that differ in their fingerprint each pass replaces the task of the first by that of the second.
- Reconcile.Bridge.RunPass: the settings page, the status reports and what the tasks do are not part of the state; the host's layer is known from the calls it acknowledged.
- Sse.StreamOnce: chunks are cut at character boundaries; the repair of a character cut in two is done chunk by chunk and is not split invariant.
- Render.SanitizeForPane: the Unicode category of format characters is a parameter.
- JsonRpc.FinishedCalls: cancelled tasks, and ids after 2^64 calls, are not modelled; neither are the replies to the host's own requests.
- Hub.SubscriberHub.Push: in the class a push runs without receivers acting in between; the state machine lets them act between any two turns.
- Toast.SessionObs.NoteInject: the two counters of outcomes are unbounded.
- The order in which the status page lists sessions, its texts, log rotation, transport-status words, the worker's own commands.
- HTTP, Unix sockets, SQLite, systemd, the command line, the dashboard, capability checks and tool dispatch.
