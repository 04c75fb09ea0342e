# ComplianceLoop: a verified model of its hard parts

This project models, in Dafny, the parts of ComplianceLoop whose correctness is not visible
from one function: how regulation texts are cut into chunks, how agent outputs are
canonicalised, signed, archived and verified, how the log sanitiser scrubs text, how the
notification outbox behaves under duplicates and crashes, how the FAISS index is built, swapped,
loaded and queried, and how the retention task and erasure requests share one ledger.

`dafny verify dfyconfig.toml` checks everything.

## Structure

| file | what it models |
|---|---|
| `Text.dfy`, `Decimal.dfy`, `Results.dfy` | Python string operations, decimal numerals, optional values and exceptions |
| `LogCensor.dfy`, `LogShapes.dfy` | `_censor_sensitive_fields`: three chained leftmost substitutions, and what they achieve, said of characters |
| `Windows.dfy` | the sliding window as a list of events, and its shape, size and duplication bounds |
| `Chunker.dfy`, `ChunkTheorems.dfy`, `SentenceWindows.dfy` | the chunker's loops, proved to emit exactly those windows, and what follows for the chunks |
| `Whitespace.dfy`, `Blocks.dfy` | normalising white space, and coverage and loss in terms of the text between blank lines |
| `Sentences.dfy`, `SentencePieces.dfy`, `SentenceProofs.dfy`, `SentenceTheorem.dfy` | abbreviation protection, splitting and restoring |
| `Json.dfy`, `JsonProofs.dfy`, `JsonReads.dfy` | `json.dumps` and `json.loads` (RFC 8259, sections 4 to 7), their round trip, and what parsing any text yields |
| `CanonicalForm.dfy` | `canonical_json` and Python values |
| `WrittenAt.dfy` | `_serialise_written_at`: calendar, `isoformat`, time zones |
| `HmacUtils.dfy` | the signed message, the two keys, their caches, and key rotation |
| `Audit.dfy`, `AuditFlags.dfy` | integrity verification and the two flags read off its failure text |
| `AuditStore.dfy` | writer, uploader and verifier over one set of records and one bucket |
| `AuditReports.dfy` | what a verification report means for any record and any archived payload, and that tampering shows |
| `Outbox.dfy` | the notification outbox: one worker, and all workers interleaved with crashes |
| `Embedding.dfy`, `IndexFiles.dfy`, `Retriever.dfy` | batched embedding, the two index files, queries |
| `IndexSwap.dfy`, `IndexManager.dfy` | the swap step by step with crashes, and the manager object |
| `Retention.dfy` | the retention task, erasure requests, and their ledger |

Loops and objects of the original are methods and classes here, each proved against a function;
the theorems are lemmas about those functions, or about histories of events.

SHA-256, HMAC, the tokeniser, the embedding model and the FAISS search are parameters. Where a
theorem needs a cryptographic assumption, it is stated only for the values at hand (no collision
between these two inputs), never for all inputs, which no 256-bit digest satisfies. What a database
query returns is an argument that satisfies a predicate saying what the query may return. Time,
locks, crashes, refused deliveries and failing rows are arguments too.

## Where the code differs from what is promised

- **Abbreviation restore is not an inverse.** The sixteen placeholders are put back one after the
  other, so one placeholder's text can be found across two others. `"No.ABBR0No."` has no
  underscore and is corrupted. `SplittingKeepsText` gives the exact condition on the marked text.
- **Both check flags can be false.** The flags are found by searching the failure text, which quotes
  the stored hash. If its first sixteen characters contain `hmac`, a hash mismatch lowers both flags
  (`FlagsNameTheCheck`, `BothFlagsDown`). A stored hash in hex cannot do that (`HexNamesOneCheck`).
- **Letter case of the stored hash.** Full verification signs the recomputed hash, verification
  without the payload signs the stored one, so they agree only for lowercase (`LetterCaseMatters`).
- **Chunk size.** A window may hold up to `2 * chunk_size + overlap - 1` paragraph tokens, not
  `chunk_size`; the bound is reached.
- **Superadditivity of the fallback tokeniser** holds for paragraphs, which are longer than 20
  characters, and fails for very short sentences; `FallbackSuperadditiveExactly` says when.
- **A failed health check keeps staging** (retrieval/index_manager.py:359-367, against line 29).
- **A second swap attempt after a crash between the two renames deletes the old active index**: the
  backup is removed first, and at that point it is the only copy (`SecondAttemptDropsOld`). An attempt
  is safe for the newest generation exactly when the active directory exists as it begins
  (`AttemptsKeepExactly`).
- **Retrieved text is always empty**: `to_metadata_dict` stores no `text`.
- **`isoformat` leaves out zero microseconds** (audit/hasher.py:213, against its docstring).
- **The one-minute retry delay never gets into `next_retry_at`**: the counter is raised before the
  table is read; only Celery's own countdown uses it.
- **Delivery does not look at `next_retry_at`**, and a crash after an accepted dispatch sends twice.
- **The retention loop can stop early**: with a full batch of failing rows, a selection may hold
  nothing else (`ExitIsSafeExactly`).

## Model

| member | source | states |
|---|---|---|
| LogCensor.SubAtLeftmost | observability/logging_config.py:111-140 | A pass replaces exactly the leftmost match by its marker and goes on behind it. |
| LogCensor.PassKeepsClean | observability/logging_config.py:111-140 | A pass leaves no match of its own pattern and creates none of another that had none. |
| LogCensor.CleanMeansNoMatch | observability/logging_config.py:111-140 | The recursive notion of clean text is the same as: no offset matches. |
| LogShapes.CensorIsComplete | observability/logging_config.py:111-140 | For every string, the sanitised text holds no PAN, no Aadhaar number and no 64-digit key, each defined by its characters and the characters around it. |
| LogShapes.CensorLeavesAlone | observability/logging_config.py:111-140 | A text is unchanged if and only if it holds none of these. |
| LogShapes.CensorRedacts | observability/logging_config.py:111-140 | PANs, then Aadhaar numbers, then keys: the leftmost one gives way to the literal marker of its kind, then the next behind it, and nothing else changes. |
| LogShapes.RedactedUnique | observability/logging_config.py:111-140 | Only one text comes of replacing them so. |
| LogShapes.CensorEventTheorem | observability/logging_config.py:111-140 | On an event: same keys, other values untouched, nothing sensitive left in any text, idempotent. |
| Windows.CarryIsShortestSuffix | retrieval/chunker.py:241-256 | What is carried over is the shortest suffix of the window reaching the overlap, or all of it. |
| Windows.EventsChained | retrieval/chunker.py:186-272 | Windows are contiguous ascending runs; without an oversized paragraph between, each starts with the carried suffix of the one before. |
| Windows.WindowSizeBound | retrieval/chunker.py:228-257 | Size bounds of full, cut-short and final windows in terms of the largest unit. |
| Windows.BoundedDuplication | retrieval/chunker.py:194-270 | No unit is in more than overlap + 1 windows, all flushes counted. |
| Windows.EventsCover | retrieval/chunker.py:194-270 | Every fitting unit is in a window and every oversized one is handled by itself. |
| Windows.SizeBoundIsTight | retrieval/chunker.py:228-257 | Paragraphs of size, overlap - 1 and size tokens reach 2 * size + overlap - 1, for all sizes. |
| Windows.DuplicationIsTight | retrieval/chunker.py:228-257 | The duplication bound is reached, for every overlap. |
| Chunker.TakeOverlap | retrieval/chunker.py:241-256 | The backward loop keeps exactly the carried suffix. |
| Chunker.ChunkSentences | retrieval/chunker.py:326-380 | The sentence loop equals its specification, whose texts the three rows of SentenceWindows describe. |
| Chunker.ChunkLargeParagraph | retrieval/chunker.py:314-380 | An oversized paragraph becomes the chunks of its sentences. |
| Chunker.ChunkParagraphs | retrieval/chunker.py:186-272 | The paragraph loop emits exactly the windows of its paragraphs and the chunks of oversized ones. |
| Chunker.ChunkText | retrieval/chunker.py:149-272 | The whole function, empty text and text without paragraphs included, equals its specification. |
| Text.StripShape | retrieval/chunker.py:392-398 | strip() takes white space off both ends and nothing else. |
| Whitespace.NormalisedText | retrieval/chunker.py:385-392 | Normalised text has the non-space characters of the original in order, no carriage return, no three newlines in a row, no two blanks in a row, and is stripped. |
| Whitespace.NormaliseEquations | retrieval/chunker.py:385-392 | Five equations that determine it: CR LF and CR are line ends, a third newline and a second blank count for nothing, tidy text is only stripped. |
| Blocks.SplitKeepsAll | retrieval/chunker.py:397 | The pieces, with runs of two or more newlines between them, give back the text, and no piece holds a blank line. |
| Blocks.ParagraphsAreBlocks | retrieval/chunker.py:395-398 | The paragraphs are exactly the maximal runs between blank lines of the normalised text that are longer than 20 characters, stripped, in order. |
| Text.JoinOffsets | retrieval/chunker.py:275-311 | Every part of a joined text stands at its offset, with the separator behind it. |
| ChunkTheorems.ChunkIndexIsPosition | retrieval/chunker.py:186-380 | chunk_index equals list position across both functions; every chunk has its source and at least 50 tokens. |
| ChunkTheorems.ChunksAreWindows | retrieval/chunker.py:186-272 | Every returned text is a window of paragraphs or comes from an oversized one. |
| ChunkTheorems.WindowIsEmitted | retrieval/chunker.py:275-311 | Every window of at least 50 tokens is returned. |
| ChunkTheorems.ParagraphWindowBound | retrieval/chunker.py:228-257 | At most 2 * size + overlap - 1 tokens, at most size + overlap - 1 when cut short, at least size when full. |
| SentenceWindows.LargeChunksAreWindows | retrieval/chunker.py:314-380 | The texts of an oversized paragraph's chunks are exactly the windows of its sentences with at least 50 tokens. |
| SentenceWindows.SentenceWindowIsEmitted | retrieval/chunker.py:331-380 | No window of sentences with at least 50 tokens is dropped. |
| SentenceWindows.LargeChunkBound | retrieval/chunker.py:331-363 | Every such chunk joins sentences of at most max(size - 1, overlap - 1 + M) + M tokens, with M the longest sentence. |
| SentenceWindows.OversizedIsEmitted | retrieval/chunker.py:198-226 | The chunks of every oversized paragraph are returned. |
| ChunkTheorems.ParagraphDuplication | retrieval/chunker.py:194-270 | For every document and every tokeniser giving at least one token, a paragraph is in at most overlap + 1 windows. |
| ChunkTheorems.Coverage | retrieval/chunker.py:198-211 | A fitting paragraph is in a returned chunk, or in a cut-short window of fewer than 50 tokens. |
| ChunkTheorems.LossIsBounded | retrieval/chunker.py:198-270 | The fitting paragraphs that are in no returned chunk have, all together, at most 49 tokens per oversized paragraph and 49 more. |
| ChunkTheorems.FallbackSuperadditiveExactly | retrieval/chunker.py:99-103 | Joining never lowers the fallback count if and only if, in every run of parts, rounding costs no more characters than the separators bring. |
| ChunkTheorems.FallbackIsSuperadditive | retrieval/chunker.py:99-103 | That holds for parts of four characters or more, so for all paragraphs. |
| ChunkTheorems.ShortSentencesCostTokens | retrieval/chunker.py:99-103 | Superadditivity fails for the two sentences A. and B. |
| ChunkTheorems.FallbackCoverage | retrieval/chunker.py:99-103 | Coverage with bounded loss for every document under the fallback tokeniser. |
| ChunkTheorems.FallbackLoss | retrieval/chunker.py:99-103 | The bound on the total loss, for every document under the fallback tokeniser. |
| Blocks.BlockIsReturned | retrieval/chunker.py:149-272 | Every long block that fits stands in a returned chunk unless it has fewer than 50 tokens itself; of one that does not fit, every sentence window of at least 50 tokens is returned. |
| Blocks.TextCoverage | retrieval/chunker.py:149-272 | That, for every document under the fallback tokeniser. |
| Blocks.TextLoss | retrieval/chunker.py:149-272 | The long blocks of a document that are in no chunk have at most 49 tokens per oversized block and 49 more, all together. |
| Sentences.SplitIntoSentences | retrieval/chunker.py:401-432 | The protect, split and restore loops equal their specification, with the sixteen abbreviations in order. |
| SentencePieces.RawPieces | retrieval/chunker.py:421 | The protected text is cut at every white space between a sentence mark and the start of a sentence, and nowhere else. |
| SentencePieces.PlainSentences | retrieval/chunker.py:401-432 | Of text with neither abbreviation nor underscore the sentences are exactly the stripped stretches between sentence breaks. |
| SentenceTheorem.NoSplitAfterAbbreviation | retrieval/chunker.py:408-421 | For text without underscores, every piece of the protected text but the last ends in a sentence mark that is a character of the text and not of a replaced abbreviation. |
| SentenceTheorem.SplittingKeepsText | retrieval/chunker.py:401-432 | For text without underscores, all non-space characters are kept in order if and only if the marked text has no stray placeholder. |
| SentenceTheorem.OrdinaryTextIsKept | retrieval/chunker.py:401-432 | Text without underscores and without the letters ABBR is kept. |
| SentenceTheorem.SomeTextIsCorrupted | retrieval/chunker.py:424-430 | The text No.ABBR0No. is corrupted. |
| JsonProofs.LoadsPrinted | audit/verifier.py:364-365 | json.loads undoes json.dumps for every document and every style of separators. |
| JsonProofs.PrintInjective | security/hmac_utils.py:179-185 | Different documents print differently. |
| JsonReads.LoadsWellFormed | audit/verifier.py:365 | Whatever json.loads accepts has each key once in every object and proper float texts. |
| CanonicalForm.KeyLessExactly | security/hmac_utils.py:181 | Keys are ordered by the first place where they differ, a prefix first. |
| CanonicalForm.SortedUnique | security/hmac_utils.py:181 | Sorting by key has one possible result. |
| CanonicalForm.CanonicalExactly | security/hmac_utils.py:155-185 | Equal canonical bytes if and only if equal up to key order at every depth. |
| CanonicalForm.CanonicalSurvivesArchive | audit/s3_uploader.py:101-106 | Sorted printing, parsing and canonicalising again gives the canonical form of the original. |
| CanonicalForm.CanonicalIsAscii | security/hmac_utils.py:183 | The canonical text is printable ASCII, so that encoding and decoding it changes nothing. |
| CanonicalForm.ReloadedCanonicalJson | security/hmac_utils.py:155-203 | canonical_json(loads(dumps(v))) == canonical_json(v), with datetimes, UUIDs and enum members turned to text. |
| CanonicalForm.DefaultsTellApart | security/hmac_utils.py:188-203 | Datetimes and UUIDs with different texts have different canonical text; an enum member has that of its value. |
| AuditStore.FieldShows | security/hmac_utils.py:155-203 | Changing one value of a dict changes the canonical text if and only if it changes that of the value. |
| WrittenAt.CivilInverse | audit/hasher.py:192-213 | The calendar fields of a moment name that moment, leap years included. |
| WrittenAt.CalendarYears | audit/hasher.py:212 | The moments that fit the calendar are exactly those whose year has at most four digits. |
| WrittenAt.IsoInjective | audit/hasher.py:213 | Different calendar fields give different isoformat texts, with and without microseconds. |
| WrittenAt.IsoReads | audit/hasher.py:213 | Where each field stands in the text, YYYY-MM-DDThh:mm:ss+00:00, with .ffffff unless zero. |
| WrittenAt.SerialiseExactly | audit/hasher.py:192-213 | Two datetimes are written alike if and only if they are the same moment, naive ones taken as UTC. |
| WrittenAt.IsoHasNoBar | security/hmac_utils.py:242-247 | The written moment holds no pipe. |
| HmacUtils.MessageInjective | security/hmac_utils.py:233-262 | With pipe-free fields the message determines all four of them. |
| AuditReports.MessageText | security/hmac_utils.py:242-262 | The message is hash, decision, version and moment with a bar between two. |
| AuditReports.MessageTellsFields | security/hmac_utils.py:233-262 | A message of bar-free fields equals no message of other fields, bars in them or not. |
| HmacUtils.FromHexToHex | security/hmac_utils.py:77 | Every key is read back from its hex form. |
| HmacUtils.KeyLoads | security/hmac_utils.py:57-91 | The hex form of a key loads, as that key, if and only if it has 32 bytes; else RuntimeError. |
| HmacUtils.ComparedExactly | security/hmac_utils.py:336-344 | Comparing digests: equality, and TypeError exactly for a character outside ASCII. |
| HmacUtils.RefusedOutputs | security/hmac_utils.py:206-230 | Hashing raises ValueError exactly for outputs that count as false. |
| HmacUtils.OnlyHexText | security/hmac_utils.py:77 | A hex text that is read holds nothing but hex digits and ASCII white space. |
| JsonProofs.HexLetters | security/hmac_utils.py:77 | Hex digits are read in both cases, with the same value. |
| HmacUtils.BlanksSkipped | security/hmac_utils.py:77 | ASCII white space before a pair of digits is skipped. |
| HmacUtils.LowerCase | security/hmac_utils.py:328-346 | On ASCII, lower-casing maps the capitals to the small letters and nothing else. |
| HmacUtils.VerifyMeans | security/hmac_utils.py:298-346 | A signature is accepted if and only if, up to letter case, the current or the previous key gives it. |
| HmacUtils.KeyCache.GetServerKey | security/hmac_utils.py:96-101 | Loads once, raises RuntimeError on a missing, malformed or short key, and caches only a good one. |
| HmacUtils.KeyCache.GetPreviousKey | security/hmac_utils.py:104-118 | Optional key, no length check, a malformed value counts as none and is not cached. |
| HmacUtils.KeyCache.ComputeRecordHmac | security/hmac_utils.py:265-295 | Signs with the current key or raises. |
| HmacUtils.KeyCache.VerifyRecordHmac | security/hmac_utils.py:298-346 | Result and cache contents of a verification, current key first. |
| HmacUtils.KeyCache.Rotate | security/hmac_utils.py:121-129 | After a rotation the old key is the previous one and both caches are empty. |
| HmacUtils.CachedKeysStay | security/hmac_utils.py:91-129 | A cached key is used whatever the environment says by now, and a load that succeeds is cached. |
| HmacUtils.RunKeys | security/hmac_utils.py:91-129 | In every run the keys in use are those of the current and the previous epoch, whatever the caches hold. |
| HmacUtils.RotationWindow | security/hmac_utils.py:27-32 | Over every run, a record verifies if and only if at most one rotation lies between signing and checking. |
| Audit.SignedAlike | audit/hasher.py:72-105 | For equal hashes, equal signed messages mean the same ids and the same moment. |
| Audit.VerdictOf | audit/hasher.py:108-168 | Which of the three results comes out, for arbitrary stored hash and signature. |
| Audit.VerifiesExactly | audit/hasher.py:108-168 | A record verifies against presented inputs if and only if outputs (up to key order), ids and moment agree; otherwise the reason names the failed check. |
| AuditFlags.ContainsInPhrase | audit/verifier.py:166-167 | A word is in the failure text if and only if it is in one of its phrases. |
| AuditFlags.FlagsNameTheCheck | audit/verifier.py:159-173 | Exact value of both flags for any stored values, including when both are false. |
| AuditFlags.HexNamesOneCheck | audit/verifier.py:159-173 | For a stored hash in hex exactly one flag is false on failure. |
| AuditFlags.BothFlagsDown | audit/verifier.py:166-167 | The stored hash hmac lowers both flags. |
| AuditFlags.FullIsHashAndHmac | audit/verifier.py:256-317 | For a lowercase stored hash full verification succeeds if and only if the hash matches and verification without the payload succeeds. |
| AuditFlags.LetterCaseMatters | audit/verifier.py:278-301 | For a record genuinely signed with either key, in any letter case, verification without the payload succeeds if and only if the stored hash is lowercase. |
| AuditStore.OutputsHold | audit/writer.py:306-333 | The signed outputs hold the five results under document, sanctions, temporal, transaction and rag, null when missing, and nothing else. |
| AuditStore.OutputsAgree | audit/writer.py:306-333 | Two runs have the same outputs if and only if the results of all five source names agree, missing ones counting as null. |
| AuditReports.ArchivedPayload | audit/s3_uploader.py:86-106 | Whatever json.dumps accepts is archived, and the archive reads back with the eight fields of the payload. |
| AuditStore.ArchiveKeepsOutputs | audit/verifier.py:364-374 | What is downloaded are the archived outputs, with sorted keys. |
| AuditReports.DownloadedIs | audit/verifier.py:361-374 | What the download step finds in any archived document: outputs, no payload, or one that has no get. |
| AuditStore.S3KeyInjective | audit/hasher.py:171-187 | Different decisions never share an object key. |
| AuditStore.ReloadedHash | audit/hasher.py:137-142 | Downloaded outputs hash like the outputs that were written. |
| AuditStore.NewRecordIsGenuine | audit/writer.py:183-226 | The inserted record binds hash, signature and object key to its inputs. |
| AuditStore.NewRecordRaises | audit/writer.py:183-241 | What is raised, in which order: outputs that are no JSON, no usable key, a decision that has its record. |
| AuditStore.GenuineVerifies | audit/verifier.py:141-188 | A genuine record is valid while its key is current or previous: fully checked once uploaded and reachable, by signature before. |
| AuditStore.EveryRecordVerifies | audit/verifier.py:90-201 | So is every record of a store in any reachable state. |
| AuditStore.UploadCompletes | audit/s3_uploader.py:82-139 | After uploading what was written a reachable record is reported valid with both checks passed. |
| AuditStore.AuditSystem.WriteAuditRecord | audit/writer.py:153-251 | Hash, signature, key, then one insert; nothing is stored when any step raises; uploaded starts false; no earlier record changes. |
| AuditStore.AuditSystem.UploadAuditPayload | audit/s3_uploader.py:55-139 | Object first, flag after, for any arguments; uploading what was written keeps every uploaded record with its payload. |
| AuditStore.AuditSystem.VerifyByDecisionId | audit/verifier.py:90-201 | It returns the report that the AuditReports rows describe, ValueError for an unknown decision, and changes no key. |
| AuditReports.ReportWithoutPayload | audit/verifier.py:278-319 | For any record: when it can be checked at all; valid if and only if the stored signature is that of a key in use over the stored hash, ids and moment; flags and reason of both outcomes. |
| AuditReports.ReportWithPayload | audit/verifier.py:90-201 | For any record and any downloaded outputs: valid if and only if the stored hash is theirs and the signature of a key in use covers it; both flags and the reason of each failure. |
| AuditReports.RecordTamperingShows | audit/verifier.py:278-319 | Without a payload a presented record is valid if and only if hash, signature, ids and moment are the genuine ones. |
| AuditReports.PayloadTamperingShows | audit/verifier.py:256-275 | Whatever the bucket holds, a report with a payload is valid if and only if outputs (up to key order), hash, signature, ids and moment are the genuine ones. |
| Outbox.Worker.PollOutbox | workers/notification_worker.py:81-124 | One task per returned row is queued and no row changes. |
| Outbox.EnqueuedHolds | workers/notification_worker.py:117-122 | A poll queues as many tasks as it returned rows, each fresh and for one of them, and no other. |
| Outbox.Worker.DeliverRow | workers/notification_worker.py:164-273 | New row and result for every guard and both answers of the channel. |
| Outbox.ResultTells | workers/notification_worker.py:185-273 | The result says which guard applied or what the channel answered, and nothing else. |
| Outbox.Worker.DeliverNotification | workers/notification_worker.py:137-161 | The task leaves the queue and comes back with a higher counter when the delivery raised and retries are left. |
| Outbox.RefusalMeans | workers/notification_worker.py:259-273 | After a refused dispatch a row is FAILED exactly when its retries are used up, else due again exactly from two, four or eight minutes later on. |
| Outbox.ExhaustedMeans | workers/notification_worker.py:206-223 | A row without retries left becomes FAILED without a dispatch, and no other row changes. |
| Outbox.StepKeepsInv | workers/notification_worker.py:164-273 | Every step of the system, crashes included, keeps the accounting of every row. |
| Outbox.DeliveryCounting | workers/notification_worker.py:115-273 | Over every interleaving: at most max_retries dispatches and one accepted dispatch, plus the crashes between dispatch and commit. |
| Outbox.ReachableRows | workers/notification_worker.py:192-272 | In every reachable state FAILED means retries used up, retry_count is within max_retries, and sent_at is set exactly on SENT rows. |
| Outbox.RowsOnlyAdvance | workers/notification_worker.py:192-272 | SENT, FAILED and SUPPRESSED are never left and retry_count never drops, over every continuation. |
| Outbox.DeliveriesBounded | workers/notification_worker.py:207-272 | Each committed delivery of a PENDING row lowers the measure, so their number is bounded. |
| Outbox.RoundDelivers | workers/notification_worker.py:81-124 | In a round whose tasks come from the queue that its poll filled, a delivery of a PENDING row is committed as long as there is one. |
| Outbox.OutboxDrains | workers/notification_worker.py:81-161 | With such rounds, any interleaving and any answers within each, no row is PENDING after as many as the measure says. |
| Outbox.RoundPossible | workers/notification_worker.py:81-161 | Whatever a poll returns can be followed up to a whole round. |
| Outbox.DeliveryIsASchedule | workers/notification_worker.py:164-273 | The one-task worker is one possible schedule of the interleaved system. |
| Outbox.CrashSendsTwice | workers/notification_worker.py:226-236 | From any state with a deliverable row, one crash after an accepted dispatch makes it go out twice. |
| Embedding.BatchEmbed | retrieval/embedder.py:167-238 | Row k is the embedding of text k, or zero if it is blank; ValueError exactly when all are blank. |
| Embedding.RowsAre | retrieval/embedder.py:189-227 | White-space-only text has a row of zeros, any other its embedding; all are empty exactly when all are white space. |
| Embedding.BatchesAre | retrieval/index_manager.py:201-206 | A batch has nothing to embed exactly when its 256 texts, or what is left, are white space. |
| Embedding.Scatter | retrieval/embedder.py:221-227 | Scattering the encoded rows over zeros puts every row in its place. |
| IndexFiles.KeyRoundTrip | retrieval/index_manager.py:129 | int(str(k)) == k. |
| IndexFiles.SignedNumerals | retrieval/index_manager.py:129 | Numerals with a sign are read with their sign. |
| IndexFiles.LoadedIsBuilt | retrieval/index_manager.py:126-136 | Loading what was built gives exactly the vectors and the ID map [0, n) through JSON. |
| IndexManager.EmbedInBatches | retrieval/index_manager.py:201-213 | Batches of 256 equal one pass; it raises exactly when some batch has nothing to embed. |
| IndexManager.IndexManager.Build | retrieval/index_manager.py:152-233 | What staging holds after each outcome, and the number of vectors. |
| IndexManager.IndexManager.Load | retrieval/index_manager.py:92-144 | Index, ID map and origin change together or not at all. |
| IndexManager.IndexManager.HealthCheck | retrieval/index_manager.py:237-327 | Passes when at least nine tenths of the golden queries find their document; raising queries fail; no test set passes. |
| IndexManager.TopResultIs | retrieval/index_manager.py:292-305 | A golden query counts exactly when the chunk that scores best for it, at zero or more, comes from the expected document. |
| IndexManager.HealthyExactly | retrieval/index_manager.py:237-327 | A built index passes if and only if there are golden queries and at least nine in ten of them find their document so. |
| IndexManager.IndexManager.SafeSwap | retrieval/index_manager.py:331-395 | Directories, loaded index and result in every case; a failed check changes nothing. |
| IndexManager.SwapServesBuild | retrieval/index_manager.py:369-380 | After build and swap, active is what was built and backup is the former active. |
| Retriever.Query | retrieval/retriever.py:102-187 | The result loop over any ID map: padding and low scores skipped, metadata looked up, and every exception of .get and int. |
| Retriever.UnknownChunk | retrieval/retriever.py:159-169 | A hit that the ID map does not know gets empty texts, the document unknown and zeros. |
| Retriever.IntOfMeans | retrieval/retriever.py:159-169 | int() of what json wrote: numbers, numerals and booleans are read; null, lists and objects raise TypeError. |
| Retriever.RetrievedMetadata | retrieval/retriever.py:159-169 | A result over a built index carries its chunk's metadata and an empty text. |
| Retriever.ResultsAgreeWithChunks | retrieval/retriever.py:147-170 | Over a built index no query raises, each result is the chunk whose vector scored it, with that score, and results are distinct and best first. |
| Retriever.BestChunksReturned | retrieval/retriever.py:147-170 | A chunk left out scores below the threshold or no better than any of the top_k hits. |
| IndexSwap.CrashSafety | retrieval/index_manager.py:369-380 | The swap invariant holds at every crash point of any number of attempts. |
| IndexSwap.SwapIsCrashSafe | retrieval/index_manager.py:369-377 | The staged generation is never lost, each rename finds its target absent, active is missing only between the renames or after a crash there. |
| IndexSwap.FirstAttemptKeepsOld | retrieval/index_manager.py:370-374 | Wherever a first attempt crashes, the old generation is in active or backup. |
| IndexSwap.AttemptsKeepExactly | retrieval/index_manager.py:370-374 | An attempt keeps a generation at every point if and only if it is the active one when the attempt begins; for the newest, if and only if the active directory exists. |
| IndexSwap.FormerSurvives | retrieval/index_manager.py:370-374 | However many attempts crash, it is kept as long as each finds an active directory when it begins. |
| IndexSwap.SecondAttemptDropsOld | retrieval/index_manager.py:371-374 | A second attempt after a crash between the renames does exactly that. |
| IndexSwap.RerunActivates | retrieval/index_manager.py:352-383 | Re-running after any crash ends with the staged generation active. |
| IndexSwap.AttemptIsSwapOnce | retrieval/index_manager.py:352-389 | The steps of an uninterrupted attempt amount to the swap of the manager. |
| Retention.Store.WipeApplication | dpdp/retention_enforcer.py:209-239 | One application nulled and marked, one event listing what was there. |
| Retention.Store.WipeBatch | dpdp/retention_enforcer.py:207-262 | Applications, events and both counts after a batch with failing rows. |
| Retention.Store.RunRetentionWipe | dpdp/retention_enforcer.py:104-159 | It terminates after the first round without progress; the totals are the events added and the errors of all rounds. |
| Retention.Store.HandleErasure | dpdp/data_subject_handler.py:230-308 | ValueError without a match, otherwise everything matching is wiped with policy 0 and the already wiped ones are reported. |
| Retention.ExitGuarantee | dpdp/retention_enforcer.py:104-116 | A round without progress and fewer failing rows than the batch size leave no healthy expired row. |
| Retention.ExitIsSafeExactly | dpdp/retention_enforcer.py:189-202 | Every idle selection leaves no healthy row if and only if fewer failing rows than a batch are eligible or no healthy row is left. |
| Retention.TaskEndsComplete | dpdp/retention_enforcer.py:104-116 | When the task ends, every unlocked application expired at the last clock is wiped or failing. |
| Retention.WipeAllEffect | dpdp/retention_enforcer.py:207-262 | A batch touches only its picks and adds one event for each it wipes. |
| Retention.LedgerConservation | dpdp/retention_enforcer.py:226-241 | Over every serial history: wiped if and only if exactly one event, no PII left, otherwise unchanged; the event lists the fields that were there. |
| Retention.WipedForGood | dpdp/data_subject_handler.py:248-252 | Once wiped, an application never changes again. |
| Retention.WipedExactly | dpdp/retention_enforcer.py:189-202 | Over every history an application ends wiped if and only if a batch picked it when expired and it did not fail, or its applicant asked; demo applications never are, and the rest are as they were. |
| Retention.ErasureReachesAll | dpdp/data_subject_handler.py:231-243 | An erasure leaves no application of its applicant unwiped but the demo ones. |
| Retention.LedgerIsAppendOnly | dpdp/retention_enforcer.py:230-239 | Events are only added, each with the moment, run and policy of its operation, zero days for an erasure. |
| Retention.TaskIsAHistory | dpdp/retention_enforcer.py:104-116 | The rounds of the retention task are such a history, so all this holds of the task. |
| Retention.EraseAllEffect | dpdp/data_subject_handler.py:295-308 | The count an erasure reports is the number of events it adds. |
| Retention.FieldsTextExactly | dpdp/retention_enforcer.py:235 | The field list determines which of the three fields were present. |
| Retention.FieldsTextIs | dpdp/retention_enforcer.py:210-235 | The list itself, in each of the eight cases. |

## Left out

- Abbreviation restore on texts that already contain underscores: only the splitter's loops are proved for them, not the text-keeping condition.
- `char_start`, `char_end` and section hints as the chunker computes them: first-occurrence heuristics; the index part takes any values.
- tiktoken's rejection of special tokens, and any failure inside the tokeniser: the token counter is a total function.
- Lone surrogates in strings: characters are Unicode scalar values, so UTF-8 encoding never fails.
- Float identity: a float is its lexeme, assumed to be what `repr` writes; Python's limit on converting very long digit strings to integers.
- Non-string dictionary keys in agent outputs, which sort differently before and after parsing; `Decimal` and other types make `json.dumps` raise TypeError in the model as in the code.
- `str.lower` outside ASCII, but for the one character whose lower case is ASCII: such a value raises TypeError in the comparison whatever it becomes.
- AES-GCM: the bucket holds the JSON text itself.
- `_serialise_agent_result` for dataclasses and other objects: results are dicts or missing.
- Whether the retry task, which takes the outputs from the decision row, uploads those that were written; other uploads are modelled, but nothing is said about verifying after them.
- The retry loop for pending uploads, `verify_by_application_id`, and the report's descriptive fields: counting and copying.
- strftime("%Y") for years before 1000.
- Rotating the environment without clearing the caches; each process has its own caches.
- PostgreSQL, Redis, MinIO, Celery and asyncio: a transaction is one step, FOR UPDATE is mutual exclusion per row, late acknowledgement is redelivery after a crash. Failing commits, and exceptions raised by metrics code after a commit, are not modelled.
- Rows of the outbox whose channel is neither e-mail nor webhook; the contents of a notification.
- Torn reads between the index and the ID map under the background reload thread, and loads racing a swap in another process.
- A crash while build writes its two files, and another build during a swap.
- Floating-point rounding: scores are exact real numbers, and nine tenths is compared as a fraction.
- Unicode digits in ID-map keys and numeric strings; the value of int() on a float is a parameter.
- The scores of zero rows, and the text of the query that the RAG agent composes from findings.
- Concurrent erasure and wipe of one row: erasure takes no row lock, so the ledger is proved for serial histories.
- A failure in the middle of wiping one application: failing rows raise before anything changes.
- compute_retention_expiry, consent withdrawal, access requests, breach procedures, PAN handling, secrets loading: single branches, counting or configuration.
