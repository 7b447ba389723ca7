# hannah-logcollector, modelled and proved in Dafny

The collector takes log entries from many producers, keeps them in a store for a while, forwards each
of them as syslog, and hands them out as an archive. This project models the parts of it that are easy to
get subtly wrong and proves what they promise, for all inputs and all runs:

- **The line** (`SyslogFormat`, `StructuredData`, `SyslogParse`, `RoundTrip`, `LineLength`, `Framing`, `Utf8`,
  `Bytes`, `Records`): printing an entry as an RFC 5424 message with an RFC 6587 octet count, and the
  hand-written parser that reads such messages. Go strings are byte sequences; UTF-8 is section 4 of RFC 3629.
- **The forwarder** (`ForwardQueue`, `Sender`, `Delivery`): the ring that drops its oldest entry and the source
  cache as classes changed in place, `send` and `flush` as methods over a connection, and `Run` beside any
  number of `Offer` calls as a transition system whose network fails at will.
- **The store** (`Rows`, `Store`, `Writer`, `Sections`, `Export`): the batching writer as a class and as a
  transition system with producers and Sync callers, retention, the filtered read, and the archive built from it.
- **Across packages**: `Receiver` and `Hop` (what a second collector makes of a forwarded entry), `Caches` (both
  source caches beside the store), `Pipeline` (writer and forwarder joined by the tap).

`Wrappers` and `Subsequences` hold what several modules share.

Run `dafny verify dfyconfig.toml` to check everything.

## How to read it

A loop or an update in place is a method, proved equal to a function; the theorems are lemmas about the functions
and about all runs of the transition systems. The Forwarder struct is two classes, `ForwardQueue.Ring` for the part its
mutex guards and `ForwardQueue.Encoder` for the part only Run touches. Time printing and parsing are arbitrary functions (`TimePrinter`,
`TimeReader`); where a theorem needs something of them it says so (space-free, read back exactly, 24 bytes long).
The database answers or fails as a parameter says; the network does whatever an action says. The numbers of the
level and category enums are those of the protocol descriptor inside dist/amd64/hannah-logcollector; a number the enum
does not know prints as itself.

## Where the code and its documentation differ

- The comment beside `maxText` (internal/forward/format.go:18-19) promises lines below 8192 bytes. Logger and name
  are not limited, so the promise depends on them: `LineLength.FitsReceiverIff` gives the exact condition, a
  structured data field of at most 850 bytes, and `LineLength.LongLoggerDoesNotFit` an entry that breaks it.
- `Sync` is documented to return once every entry queued before it has been written (internal/store/writer.go:110).
  A nil answer of the main loop means that exactly if no insert failed before (`Writer.SyncBarrier`,
  `Writer.SyncForgetsFailedFlush`); a nil answer of drain means it exactly if the batch is empty as well
  (`Writer.DrainedSync`), since the last flush comes after it.
- `skipStructuredData` takes a backslash for an escape outside quotes too, while section 6.3 of RFC 5424 allows
  one in an SD-NAME. `RoundTrip.SkipIff` says for which elements that goes wrong:
  the last one being an SD-ID without parameters that ends in an odd number of backslashes.
- A leading byte order mark is removed by each parse, so a text that starts with two of them changes on every hop, and
  a text that is one is not forwarded again: `Hop.OneHopIsFixedIff`.
- The package comment promises one file per source (internal/export/export.go:1-2). Each source has a file of its own
  (`Export.ExportIsPartition`), but two may bear the same name: `Export.FileNamesCollideIff` says when, and
  `Export.DashFreeCollideIff` that without a dash in the components only names that look alike do.
- The drop counter is a uint64 and goes back to 0 at 2^64; below that the logged and pending drops are
  exactly the evictions (`ForwardQueue.Ring.CountsDrops`, kept by every method of the class).

## Model

| member | source | states |
|---|---|---|
| Bytes.ItoaRoundTrip | internal/forward/format.go:45 | decimal printing of any number is undone by the reader's Atoi |
| Utf8.BoundaryIffRuneStart | internal/forward/format.go:136 | in valid UTF-8 the bytes RuneStart accepts are exactly the character boundaries |
| Utf8.ValidUpTo | internal/forward/format.go:136-139 | a prefix of valid UTF-8 is valid exactly at a character boundary |
| SyslogFormat.BuildNameField | internal/forward/format.go:85-101 | the loop computes the field: sanitised characters up to the limit, "-" if none |
| SyslogFormat.NameFieldUsable | internal/forward/format.go:83-101 | HOSTNAME and APP-NAME are never empty, printable US-ASCII without space, within the limit |
| SyslogFormat.NameFieldFixed | internal/forward/format.go:83-101 | a name is left alone if and only if it is usable already, so sanitising twice is sanitising once |
| SyslogFormat.SanitizeIsMap | internal/forward/format.go:87-96 | one output byte per character, in order: the character if printable US-ASCII, else an underscore; cut to the limit |
| SyslogFormat.CutText | internal/forward/format.go:130-140 | trimming and the decrementing cut compute the text |
| SyslogFormat.TextBounds | internal/forward/format.go:129-140 | the text has at most 7000 bytes, no trailing line break, and equals the message exactly if that has these two properties |
| SyslogFormat.TextIdempotent | internal/forward/format.go:129-140 | the text of a text is itself |
| SyslogFormat.TextOfValid | internal/forward/format.go:129-140 | valid UTF-8 stays valid; a cut message keeps its longest valid prefix within 6997 bytes, at least 6994 |
| SyslogFormat.BuildStructuredData | internal/forward/format.go:103-123 | the builder prints the RFC 5424 element of category, logger and name, or "-" |
| SyslogFormat.SdWellFormed | internal/forward/format.go:103-123 | the printed element has legal names |
| SyslogFormat.SdFieldInjective | internal/forward/format.go:103-127 | two fields that print alike have the same category, logger and name |
| SyslogFormat.SdFieldReads | internal/forward/format.go:103-123 | a reader of RFC 5424 finds "-" or one element with the project's SD-ID and, under their names, category, logger and name |
| Records.CategoryNameInjective | internal/forward/format.go:104 | the printed category determines the category, known or not |
| SyslogFormat.BuildMessage | internal/forward/format.go:42-57 | the builder appends exactly the parts of Format |
| StructuredData.EscapeLength | internal/forward/format.go:125-127 | escaping adds one byte for each backslash, quote and closing bracket |
| StructuredData.ReadEscaped | internal/forward/format.go:125-127 | a reader of section 6.3.3 of RFC 5424 gets back any escaped value and stops at its quote |
| StructuredData.ReadRendered | internal/forward/format.go:109-121 | a reader of section 6.3 of RFC 5424 gets back a printed element and what follows it |
| RoundTrip.FormatHasParts | internal/forward/format.go:42-81 | a line has priority 130, 131, 132, 134 or 135 by its level, version 1, "-" for process and message id, and text behind skippable structured data |
| LineLength.FormatLength | internal/forward/format.go:42-57 | the exact length of a line |
| LineLength.SdLength | internal/forward/format.go:103-123 | the exact length of the structured data, from what a caller can count |
| LineLength.FormatBound | internal/forward/format.go:18-24 | a line has at most 7342 bytes beside its structured data |
| LineLength.FitsReceiverIff | internal/forward/format.go:18-20 | for an entry's category, logger and name all lines fit 8192 bytes if and only if the structured data has at most 850 |
| LineLength.LongLoggerDoesNotFit | internal/forward/format.go:18-20 | an entry with an empty message whose line is over the limit |
| Framing.ReadWholeFrame | internal/forward/format.go:61-65 | a receiver counting octets reads one frame as the message and leaves what follows |
| Framing.ReadAll | internal/forward/format.go:59-65 | reading any concatenation of frames of non-empty messages gives exactly that list |
| Framing.ReadPrefix | internal/forward/format.go:59-65 | from any byte prefix of the stream the reader gets the complete messages in order and one incomplete frame |
| Framing.ReadLosesNothing | internal/forward/format.go:59-65 | for any bytes, frames read and rest make up the stream again |
| Framing.DecodableIffFramed | internal/forward/format.go:59-65 | a stream reads without rest if and only if it is a concatenation of frames |
| SyslogParse.SkipStructuredData | internal/syslog/parse.go:94-121 | the scanner's nested loops compute the remainder or the error |
| SyslogParse.CutHeader | internal/syslog/parse.go:46-54 | the loop fills the six header fields and leaves the remainder |
| SyslogParse.Parse | internal/syslog/parse.go:31-83 | Parse returns the message, or the error, of the parsing function; what that means for any packet is RoundTrip.ParsedParts and RoundTrip.ParseAcceptsIff |
| RoundTrip.ScanEscaped | internal/syslog/parse.go:101-112 | inside quotes no escaped value ends the element or the quotes |
| RoundTrip.ScanRendered | internal/syslog/parse.go:99-112 | scanning a printed element ends behind it, unless it hides its end |
| RoundTrip.ScanOddName | internal/syslog/parse.go:104-105 | behind a name the scanner goes on with the next byte, or skips it if and only if the name ends in an odd number of backslashes |
| RoundTrip.SkipIff | internal/syslog/parse.go:92-121 | over any list of RFC 5424 elements the remainder is returned if and only if the last element does not hide its end |
| RoundTrip.SkipFailsOnBackslashName | internal/syslog/parse.go:104-105 | the element "[\]" is legal and rejected |
| RoundTrip.SkipPrintedField | internal/forward/format.go:103-123 | whatever Format prints as structured data is skipped whole |
| RoundTrip.ParseAfterFormat | internal/syslog/parse.go:31-83 | Parse of Format succeeds for all bytes and returns severity, sanitised names ("-" as empty) and the text without one byte order mark |
| RoundTrip.ParseAcceptsIff | internal/syslog/parse.go:24-83 | Parse accepts exactly the packets with a priority up to 191, version 1, six fields, skippable structured data and a text behind a space |
| RoundTrip.ParsedParts | internal/syslog/parse.go:60-82 | of any accepted packet the severity is the priority modulo 8, "-" reads as an absent name or time, and the text lacks at most one byte order mark in front and exactly the line-break bytes at the end |
| RoundTrip.SkippedPart | internal/syslog/parse.go:92-121 | of any input what is skipped is "-" or runs from an opening to a closing bracket, and no element starts behind it |
| ForwardQueue.Ring.constructor | internal/forward/forwarder.go:68-79 | a new queue is empty and has the configured or the default size |
| ForwardQueue.Ring.Offer | internal/forward/forwarder.go:87-102 | an offer appends the entry and drops the oldest only if the ring is full, and leaves a notification |
| ForwardQueue.Ring.Take | internal/forward/forwarder.go:105-116 | take returns and removes the oldest entries, exactly limit of them or all there are |
| ForwardQueue.Ring.ReportDrops | internal/forward/forwarder.go:120-130 | drops are logged once a minute at most, and every drop is either logged or still counted |
| ForwardQueue.EnqueueAccounted | internal/forward/forwarder.go:87-96 | an offer keeps the account: everything offered is queued or left in the order of the offers, and the queue is bounded |
| ForwardQueue.DequeueAccounted | internal/forward/forwarder.go:105-116 | so does take |
| ForwardQueue.HistoryMeaning | internal/forward/forwarder.go:87-116 | the queue holds the last entries offered, taken entries keep offer order, offered = taken + evicted + queued |
| ForwardQueue.Encoder.ResolveSource | internal/forward/forwarder.go:242-253 | a resolved source has the store's component and instance; it fails only if the store does or has no such source |
| ForwardQueue.Encoder.Encode | internal/forward/forwarder.go:219-240 | over TCP each line reads as one whole frame with the Format of a kept entry, over UDP it is that Format, in order; kept have text and source, and only a failing store leaves out one that has both |
| ForwardQueue.KeptPositions | internal/forward/forwarder.go:221-238 | the kept entries are exactly those with a flag, in order |
| Sender.Send | internal/forward/forwarder.go:256-268 | with nil no write failed and a peer reads, on top of what it had, exactly the messages the lines carry; with an error exactly the last write failed and it reads a first part of them and less than a frame |
| Sender.Flush | internal/forward/forwarder.go:199-210 | flush ends clean if and only if no write failed; then the queue is empty and the peer reads exactly the messages of all entries in order, but for those without text or source and those whose source the store refused; else one batch is discarded, read in part |
| Bytes.JoinedLineStands | internal/forward/forwarder.go:259 | joined lines stand one behind the other with nothing between |
| Delivery.WakeupKept | internal/forward/forwarder.go:87-102 | each step keeps: waiting with a non-empty queue implies a notification sent or pending |
| Delivery.NoLostWakeup | internal/forward/forwarder.go:142-152 | in every run, if Run waits while the queue is non-empty, it is notified or some Offer still notifies |
| Delivery.EntriesKept | internal/forward/forwarder.go:133-210 | each step keeps the account of entries and batches |
| Delivery.MessagesKept | internal/forward/forwarder.go:219-240 | each step keeps: every forwarded message is Format of its entry under the entry's source and some name |
| Delivery.ConnsKept | internal/forward/forwarder.go:156-193 | each step keeps what every connection accepted |
| Delivery.BatchesGoOutInOrder | internal/forward/forwarder.go:143-193 | a batch is rendered only when every message before it went out, and at most one batch is outstanding |
| Delivery.ConnectionsAcceptStretches | internal/forward/forwarder.go:156-193 | a receiver reads the bytes of each TCP connection as a contiguous stretch of the forwarded messages, with less than one frame behind it |
| Delivery.DatagramsAreStretches | internal/forward/forwarder.go:262-266 | the datagrams of a UDP socket are a contiguous stretch of the forwarded messages |
| Delivery.PeersReadSenders | internal/forward/forwarder.go:256-268 | Parse takes every message a peer got, over TCP or UDP, and returns severity, names and text of the entry at its place in a contiguous stretch of the rendered entries |
| Delivery.ReconnectRepeatsAtMostABatch | internal/forward/forwarder.go:180-191 | a later connection starts at most 200 messages before the end of an earlier one and misses none |
| Delivery.DoneMeansAccepted | internal/forward/forwarder.go:180-193 | every message counted as sent went out over some connection in a send that returned nil |
| Delivery.EveryEntryAccounted | internal/forward/forwarder.go:132-210 | every offered entry is written, skipped, evicted, queued or in the one batch of at most 200 a return discards |
| Delivery.ReturnsOnlyWhenCancelled | internal/forward/forwarder.go:142-151 | Run flushes and returns only after its context was cancelled |
| Delivery.CleanReturn | internal/forward/forwarder.go:135-140 | after a flush that found the queue empty nothing was discarded, and what is queued are the last entries offered since |
| Delivery.FlushEndsClean | internal/forward/forwarder.go:199-210 | a flush over a live connection ends uncleanly only by a failed write |
| Store.WhereConds | internal/store/store.go:364-391 | the joined conditions select exactly what the filter means, zero values restricting nothing |
| Store.QueryCorrect | internal/store/store.go:232-255 | the stream is ordered by source, then time, then id, and holds once each row of a known source within the range, of the components and not of an excluded category |
| Store.UpsertAgain | internal/store/store.go:144-152 | the same component and instance get the same id for good, whatever the version and whoever upserts between |
| Store.UpsertKeepsIdentities | internal/store/store.go:144-152 | an upsert keeps sources unique and changes no id's component or instance |
| Store.Database.UpsertSource | internal/store/store.go:144-152 | a known source gets the new version, an unknown one a fresh id; an error changes nothing |
| Store.Database.InsertEntries | internal/store/store.go:174-198 | all of the batch is appended, or with an error nothing |
| Rows.InsertAppends | internal/store/store.go:174-198 | inserted rows stand behind all others, in batch order |
| Rows.OrderByCorrect | internal/store/store.go:234-239 | the ordered rows are the rows, sorted |
| Rows.DeleteOldestCuts | internal/store/store.go:343-345 | a size round deletes exactly the oldest 1000 rows, or all |
| Store.Database.Prune | internal/store/store.go:320-362 | deleted rows precede kept ones by time and id even on an error; with no statement refused both limits are met; counts are exact and every round was over the limit |
| Store.PruneIdempotent | internal/store/store.go:320-362 | pruning again at the same time removes nothing |
| Store.GapsSincePositions | internal/store/store.go:331-333 | exactly the gaps that end before the cutoff are deleted |
| Store.PruneKeepsWhatFits | internal/store/store.go:335-354 | the size limit removes something exactly if the age limit left too much, and the data was over the limit before the last round |
| Writer.BatchWriter.FlushBatch | internal/store/writer.go:39-50 | flush empties the batch, and returns nil if and only if the store grew by exactly the batch; with an error the store stays as it was |
| Writer.BatchWriter.ReceiveOne | internal/store/writer.go:58-67 | an entry joins the batch, a batch that reaches the size is stored, and a Sync is answered with nil if and only if its own flush stored the batch |
| Writer.BatchStaysBelowSize | internal/store/writer.go:58-64 | in every run the batch stays below the batch size while Run loops |
| Writer.BatchWriter.Drain | internal/store/writer.go:75-89 | drain ends with an empty channel, all its entries in the batch in order, every Sync answered |
| Writer.BatchWriter.Shutdown | internal/store/writer.go:54-57 | with a working store everything left in batch and channel is stored, in order; with a failing one the store stays as it was |
| Writer.InvKept | internal/store/writer.go:34-124 | each step keeps conservation, the marks of queued Syncs, the tap's account and the account of shutdown |
| Writer.Conservation | internal/store/writer.go:34-89 | accepted entries are tried, in the batch or queued, in order; the store lacks only whole failed batches, and none if and only if no insert failed |
| Writer.SyncBarrier | internal/store/writer.go:58-67 | at the answer of the main loop the store holds exactly the entries accepted before the Sync if and only if no insert failed; if none failed before, the answer is nil if and only if it does |
| Writer.DrainedSync | internal/store/writer.go:75-89 | at a nil answer of drain it does if and only if, besides, the batch is empty |
| Writer.SyncForgetsFailedFlush | internal/store/writer.go:68-69 | a run in which a timer flush fails and the next Sync returns nil |
| Writer.NothingLeftBehind | internal/store/writer.go:54-57 | when Run has returned and nobody sent since drain, everything accepted was inserted or its insert failed |
| Writer.TapOrder | internal/store/writer.go:91-108 | per producer the tap saw the accepted entries in order, but for at most the last |
| Writer.ByPositions | internal/store/writer.go:91-108 | the entries of a producer are exactly those it sent, in order |
| Pipeline.EachProducerInOrder | cmd/hannah-logcollector/main.go:91-92 | through writer, tap and queue, what counts as sent are accepted entries, each producer's in the order they were accepted, none counted twice |
| Pipeline.EachConnectionInOrder | internal/forward/forwarder.go:132-193 | what the peer of one connection reads are accepted entries in the order of the tap, each producer's in the order they were accepted, none twice on that connection; each message parses to what its entry says |
| Sections.GroupIsPartition | internal/export/export.go:77-112 | grouping an ordered stream cuts it into one section per source with exactly its rows, earliest first and latest last |
| Export.ExportIsPartition | internal/export/export.go:77-112 | the sections of an export hold each selected entry once and no other, one section per source |
| Export.DescribedIsExact | internal/export/export.go:67-110 | names, version and file are the source's; count, oldest and newest in the manifest are number, minimum and maximum over its entries |
| Export.StageRow | internal/export/export.go:94-112 | the callback fails exactly if an operation it needs does, and keeps: all sections but the last archived, the last staged, the manifest describing the rows so far; after an error only its own file is left to discard |
| Export.Finish | internal/export/export.go:80-87 | finishing archives the staged section and removes its file, also on an error |
| Export.StageAll | internal/export/export.go:88-118 | after reading the entries no staged file is left, whatever failed; it succeeds exactly if no read, no row and not the last finish failed |
| Export.Build | internal/export/export.go:54-136 | no temp file stays on any path; Build succeeds exactly if nothing it needs fails, and then the archive is one file per section plus a manifest of exactly the sources with entries or gaps, with range and exclusions |
| Export.ManifestNotesOverlaps | internal/store/store.go:258-300 | of a source the manifest notes each gap that shares an instant with the range, once and in table order, with its own count, start and end |
| Export.ManifestSourcesIff | internal/export/export.go:69-77 | the manifest describes exactly the sources with a selected entry or an overlapping gap |
| Export.ArchiveHoldsLines | internal/export/export.go:94-118 | each file bears its source's name and holds the line of each of its entries, one behind the other and nothing else |
| Export.ListSources | internal/export/export.go:151-160 | the manifest lists every described source once, ordered by component and instance |
| Export.LessIff | internal/export/export.go:154-160 | one name is before another if and only if it ends first or has the smaller byte where they first differ |
| Export.BuildManifest | internal/export/export.go:138-162 | the manifest carries the range, the excluded categories and the ordered sources |
| Export.FormatLineEnds | internal/export/export.go:218-232 | a line ends with the message and exactly one line break, the message's own if it has one; in front of it stands the logger, if any, with a colon |
| Export.FormatLineTells | internal/export/export.go:218-232 | of timestamps printed equally long, two lines are equal if and only if timestamp, level and what stands behind it are, for levels known to the enum or not |
| Export.FileNameIsSafe | internal/export/export.go:242-250 | a file name holds only safe bytes, and component and instance that hold no others stand in it unchanged |
| Export.RunsBecomeUnderscores | internal/export/export.go:242-250 | each run of unsafe bytes becomes one underscore |
| Export.FileNamesCollideIff | internal/export/export.go:242-250 | two sources get the same file name if and only if their names look the same or the component of one contains a dash and what the other has in front of its instance |
| Export.DashFreeCollideIff | internal/export/export.go:242-250 | of components without a dash only those that look the same, with instances that do, share a file name |
| Export.FileNamesCollide | internal/export/export.go:242-250 | "a b" and "a_b" share a file name, and so do "a-b" and the instance "b" of "a" |
| Receiver.SyslogReceiver.SourceId | internal/syslog/receiver.go:124-138 | a hit returns the cached id and asks nobody, a miss upserts and remembers; either way the id belongs to component and instance and the cache stays within 1024 |
| Receiver.SyslogReceiver.Handle | internal/syslog/receiver.go:84-122 | a malformed datagram is counted and dropped; any other becomes the entry it says under its source's id, unless the store fails |
| Hop.IngestedParts | internal/syslog/receiver.go:84-154 | what any accepted packet becomes: source names with their fallbacks, the millisecond of its time or of now, the level of its severity, an empty logger, category general, its text |
| Receiver.RememberBounded | internal/syslog/receiver.go:133-136 | storing an id never lets the cache grow beyond 1024 |
| Hop.LevelRoundTrip | internal/syslog/receiver.go:141-154 | the severity of each level is read back as the level, any other as info, and graver levels have smaller severities |
| Hop.OneHop | internal/syslog/receiver.go:84-122 | what the next collector ingests from a forwarded entry |
| Hop.OneHopIsFixedIff | internal/syslog/receiver.go:84-122 | a second hop changes nothing if and only if the text is neither one byte order mark nor starts with two |
| Caches.InvKept | internal/syslog/receiver.go:124-138 | each access to the store and each update of a cache keeps both caches right |
| Caches.RunKeepsIdentities | internal/store/store.go:144-152 | along a run no source changes its id and no id its component or instance |
| Caches.CachesAgree | internal/forward/forwarder.go:242-253 | in every interleaving cached ids are what the store would return, cached sources have the store's names, and the receiver's cache is bounded |

## Left out

- Run of the forwarder as a loop: it does not end and competes with other goroutines, so it is the transition
  system of `Delivery`; `send` and `flush` are methods as well, and flush there has the queue to itself.
- Run of the writer as a loop, for the same reason: its iterations are methods of `Writer.BatchWriter`, its runs
  the transition system.
- An unbuffered request channel: the writer's transition system needs a batch size of at least 1 (it is 500) to
  accept anything.
- Deadlines, backoff durations, what a peer does with accepted bytes, and logging other than the drop counts.
- Go's time formatting and parsing: arbitrary functions with stated conditions.
- SQLite: SQL text and placeholders, vacuum and page counts; used bytes are an arbitrary function of what is stored.
- tar, gzip, JSON and file errors other than failing: an archive is a list of names and contents.
- Export.ManifestNotesOverlaps: for gaps that start before they end and a range that is not empty; other gaps and ranges are
  selected by the two comparisons of the query, as `Export.GapMatches` has them.
- Other goroutines changing the database between the queries of one export, or between the statements of one Prune, which
  are not one transaction (internal/store/store.go:326-343). `Rows.DeleteOldestCuts` holds for whatever rows a single
  round finds; the counts and limits of `Store.Database.Prune` are those of a call nobody writes into.
- The order of the gaps in a manifest entry (internal/store/store.go:284) is that of the table; Gaps' own ORDER BY is
  not modelled.
- Sources with statistics, gRPC servers, the shipping protocol, names from Hannah Core, configuration and scripts: they
  add no harder property.
