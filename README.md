# Corpus ingestion pipeline — a Dafny model

This project models the per-file ingestion bookkeeping of `CorpusProcessor` in
`requisito2_procesamiento.py`. That class turns a folder of `.txt`
political speeches into content-addressed MongoDB documents
`{_id: sha256(texto), texto, embedding}`. Each file is decoded under a fixed
fallback order of encodings and stripped. Blank files are rejected. The id is
the SHA-256 of the UTF-8 bytes. The file is embedded and inserted with write
concern `majority`. Every file ends **Inserted**, **Duplicate** or **Failed**,
and the counters `procesados`, `duplicados` and `errores` and the log
`archivos_error` record which.

The modules, in dependency order:

- `Wrappers`: `Option` and `Result`.
- `Text`:
  - `str.strip()` with Python's whitespace set;
  - a UTF-8 encoder and decoder, with the proved round trip and injectivity.
- `Hashing`: the 64-character lowercase hex digest and the fingerprint. SHA-256 itself is a parameter.
- `Decoding`: the ordered encoding fallback of `process_file`.
- `Records`: the document and `PrepareDocument`, which is `process_file` without its logging.
- `Store`: the collection as a map from `_id` to document, `insert_one`, and the outcome of a read.
- `Pipeline`: one loop iteration (`Step`) and the whole loop (`Run`) as functions on values, with the run-level properties.
- `Processor`: the class `CorpusProcessor`.
  - Its fields `processed`, `errors`, `duplicates`, `errorFiles` and `collection` are updated in place by `ProcessFile`, `InsertOne`, `WriteDocument`, `ProcessOne` and `ProcessCorpus`.
  - Each method is proved to compute exactly the corresponding function of `Pipeline`. Every lemma about `Run` therefore holds of the object.
- `Summary`: the counted content of `_print_summary`.
- `Validation`: the computations in `validate_collection`.
- `Connection`: the order of connection attempts in `_connect_to_mongodb`, including one finding (below).

The collaborators the code calls are inputs of the model:

- the hash function, `sha256: seq<byte> -> Digest`;
- the embedding model, `encode: string -> EmbedOutcome`, which yields a vector or raises;
- what reading a file under each encoding does: text, `UnicodeDecodeError`, or another I/O error;
- what the replica set does with each write: nothing goes wrong, unreachable, or a write-concern timeout after the primary applied the write;
- whether each read of the collection after the loop answers or raises;
- the replies of the connection attempts and of `replSetGetStatus`.

Three behaviours of the code that the model keeps as written:

- Lines 216-225: an I/O error other than `UnicodeDecodeError` is not retried under the next encoding. It escapes the fallback loop and fails the file.
- Line 225: the "no encoding" message does not name the file. The file name appears only in the log entry.
- Lines 107-122: the connection fallback does not run when direct pings fail (see Findings).

The reads of the collection after the loop are not guarded. Their outcomes are inputs, and a read that raises ends the summary or the validation there:

- `count_documents({})` in `_print_summary` (line 331);
- the total count, `find_one`, `aggregate` and the two missing-field counts in `validate_collection` (lines 353, 361, 381, 392-393).

## Model

| member | source | states |
|---|---|---|
| Text.Strip | requisito2_procesamiento.py:219 | `f.read().strip()`: the result is the contiguous middle of the input with only whitespace removed at both ends; it neither starts nor ends with whitespace; it is empty exactly when the input is all whitespace |
| Text.IsSpace | requisito2_procesamiento.py:219 | the characters `str.strip()` removes: tab to carriage return, the separators 0x1C-0x1F, space, U+0085, U+00A0, U+1680, U+2000-U+200A, U+2028, U+2029, U+202F, U+205F and U+3000; `Strip`'s lemmas state what removing them means |
| Text.TrimStart | requisito2_procesamiento.py:219 | the leading-whitespace half of `strip`: a suffix of the input, the dropped prefix is whitespace, and the result does not start with whitespace |
| Text.TrimEnd | requisito2_procesamiento.py:219 | the trailing-whitespace half of `strip`: a prefix of the input, the dropped suffix is whitespace, and the result does not end with whitespace |
| Text.EncodeChar | requisito2_procesamiento.py:178 | `encode('utf-8')` of one character gives 1 to 4 bytes, and exactly 1 for ASCII |
| Text.Utf8Encode | requisito2_procesamiento.py:178 | the UTF-8 encoding of a text has between 1 and 4 bytes per character |
| Text.DecodeFirst | requisito2_procesamiento.py:178 | the strict decoder used to prove `encode('utf-8')` injective: it consumes 1 to 4 bytes per character (the round trip below is its partner) |
| Text.Utf8RoundTrip | requisito2_procesamiento.py:178 | decoding the UTF-8 encoding of any text gives that text back |
| Text.Utf8Injective | requisito2_procesamiento.py:178 | different texts have different UTF-8 encodings, so the hash input determines the text |
| Hashing.Fingerprint | requisito2_procesamiento.py:168-178 | `generate_sha256`: the digest of the UTF-8 bytes of the text, a 64-digit lowercase hex string by its type; `SharedIdIsHashCollision` states what sharing it implies |
| Hashing.SharedIdIsHashCollision | requisito2_procesamiento.py:168-178 | two different texts with the same `_id` give two different byte strings with the same SHA-256 digest, i.e. a collision |
| Decoding.DecodeFrom | requisito2_procesamiento.py:216-222 | the fallback loop from one encoding on: stripped text on the first read that returns, the error of a read that fails otherwise, the next encoding on `UnicodeDecodeError`; its lemmas below |
| Decoding.DecodeWithFallback | requisito2_procesamiento.py:213-225 | the loop over `utf-8`, `latin-1`, `iso-8859-1`, `cp1252` in that order; `FallbackTakesFirstAccepted` and `NoEncodingOnlyIfAllReject` state its result |
| Decoding.FallbackTakesFirstAccepted | requisito2_procesamiento.py:213-225 | the loop's result is exactly what the first encoding not raising `UnicodeDecodeError` does (its stripped text or its error), and "no encoding" exactly when all four raise |
| Decoding.DecodeFromFirstAccepted | requisito2_procesamiento.py:216-222 | from any starting encoding, rejected encodings are skipped until the first accepted one |
| Decoding.DecodedTextIsStripped | requisito2_procesamiento.py:219 | every decoded text is already stripped |
| Decoding.NoEncodingOnlyIfAllReject | requisito2_procesamiento.py:214-225 | the "no encoding" error occurs exactly when all four encodings raise `UnicodeDecodeError`, so never when the `latin-1` read does not raise |
| Records.PrepareDocument | requisito2_procesamiento.py:201-243 | a document is produced exactly when the decoded text is non-blank and embeds; it is well-formed (id = fingerprint of the text, text stripped and non-blank, embedding = model output); the no-encoding, empty-file and I/O errors give their messages, and an embedding failure gives the model's exception message |
| Records.SameTextSameDocument | requisito2_procesamiento.py:231-241 | equal decoded texts give the same document; the same id with different texts implies a SHA-256 collision |
| Store.InsertOne | requisito2_procesamiento.py:287 | `insert_one`: `DuplicateKeyError` exactly when the id is present and the write reaches a primary; acknowledged exactly with no fault and a new id; existing entries are never changed; the new key set and the stored value |
| Store.InsertStoredIsDuplicate | requisito2_procesamiento.py:287-300 | a write reaching a primary that holds the id is the `DuplicateKeyError` and leaves the collection exactly as it was |
| Store.InsertKeepsWellFormed | requisito2_procesamiento.py:287 | inserting a well-formed document keeps every entry well-formed under its own id |
| Store.RetryIsDuplicate | requisito2_procesamiento.py:287-300 | once a write reached the store, writing the same document again leaves the collection as it is and is a duplicate, or fails if the store is unreachable |
| Pipeline.Attempt | requisito2_procesamiento.py:278-308 | one iteration on values: `process_file`, then `insert_one` when it gave a document; `AttemptClassifies` states its outcome |
| Pipeline.ReplyOutcome | requisito2_procesamiento.py:287-308 | the handler an `insert_one` reply reaches: success, the `DuplicateKeyError` handler, or the generic one with the error's message |
| Pipeline.Tally | requisito2_procesamiento.py:280-308 | the counter update for one outcome, with the log entry for a failed write; `StepTalliesOnce`, `StepOnRejected` and `StepOnDocument` state its effect |
| Pipeline.Step | requisito2_procesamiento.py:276-308 | one iteration on the run state: attempt, then tally; `StepTalliesOnce` states its effect |
| Pipeline.Run | requisito2_procesamiento.py:275-310 | the loop over the files in order; the run-level lemmas below state what it keeps |
| Pipeline.AttemptClassifies | requisito2_procesamiento.py:278-308 | one iteration is Inserted exactly on a new id with a clean write, Duplicate exactly when the write reaches a store holding the id, and otherwise Failed, with the reason from `process_file` or from the write |
| Pipeline.StepTalliesOnce | requisito2_procesamiento.py:280-308 | each file moves exactly one counter by one; a log entry naming the file is added exactly when `errores` moves; a rejected file leaves the collection alone |
| Pipeline.StepOnRejected | requisito2_procesamiento.py:245-251 | a file `process_file` rejects adds one to `errores` and one entry with its name and message to `archivos_error`, and leaves the collection alone |
| Pipeline.StepOnDocument | requisito2_procesamiento.py:285-308 | a file with a document is counted by the reply to its `insert_one` and leaves the collection as the insert does |
| Pipeline.StepOnStoredDocument | requisito2_procesamiento.py:298-300 | a file whose document is already stored, and whose own write reaches a primary, adds one to `duplicados` only, and the collection is unchanged |
| Pipeline.RunTallies | requisito2_procesamiento.py:275-310 | over a run the counters account for every file, the error log grows in step with `errores`, earlier entries are kept as a prefix, and counters never decrease |
| Pipeline.RunKeepsErrorLog | requisito2_procesamiento.py:245-251 | a run that starts with `len(archivos_error) == errores` ends with it |
| Pipeline.RunKeepsWellFormed | requisito2_procesamiento.py:231-241 | every stored entry stays a well-formed document under its own id |
| Pipeline.RunNeverOverwrites | requisito2_procesamiento.py:287 | documents already stored remain stored and unchanged |
| Pipeline.RunStoresWrittenDocuments | requisito2_procesamiento.py:287-289 | for every file whose write reached a primary, its document's `_id` is a key of the collection after the run |
| Pipeline.StepAddsOnlyItsDocument | requisito2_procesamiento.py:287 | one iteration adds at most its own file's document |
| Pipeline.RunAddsOnlyCorpusDocuments | requisito2_procesamiento.py:275-308 | every stored entry either predates the run or is the document of one of the run's files |
| Pipeline.RunOverStoredCorpus | requisito2_procesamiento.py:287-304 | over files whose documents are all stored already, the collection is unchanged, nothing is counted processed, written files are duplicates and the rest errors |
| Pipeline.CountWrittenBound | requisito2_procesamiento.py:275 | at most every file of the run reaches the store |
| Pipeline.RerunIsIdempotent | requisito2_procesamiento.py:275-308 | running the same file list again, with every file's read, embedding and write outcomes replayed, leaves the collection exactly as the first run left it, inserts nothing, and counts written files as duplicates; `RunOverStoredCorpus` covers a rerun with new outcomes |
| Pipeline.SecondCopyIsDuplicate | requisito2_procesamiento.py:287-300 | a file whose text equals that of any file written earlier in the run, and whose own write reaches a primary, is a duplicate: only `duplicados` moves and the collection keeps the first copy |
| Pipeline.RunAppend | requisito2_procesamiento.py:275-310 | running one more file is one more iteration on the state the earlier files left |
| Pipeline.EarlierCopyStored | requisito2_procesamiento.py:287-300 | a written file with the same text as one written earlier in the run finds its id stored |
| Pipeline.ProcessedCountsNewDocuments | requisito2_procesamiento.py:287-289 | without write-concern timeouts, `procesados` grows by exactly the number of documents added |
| Pipeline.UnreachableStoreFailsEveryFile | requisito2_procesamiento.py:302-308 | when no write reaches a primary, every file is an error, the collection is untouched and the loop completes |
| Processor.CorpusProcessor.constructor | requisito2_procesamiento.py:60-67 | the statistics start at zero with an empty error log over the given collection |
| Processor.CorpusProcessor.ProcessFile | requisito2_procesamiento.py:201-251 | the encoding loop and checks give `PrepareDocument`'s document; on failure exactly one entry with the file name and message is appended to `archivos_error` |
| Processor.CorpusProcessor.InsertOne | requisito2_procesamiento.py:287 | the reply and new collection are those of `Store.InsertOne` |
| Processor.CorpusProcessor.WriteDocument | requisito2_procesamiento.py:287-308 | the reply and collection are those of `insert_one` on the old collection, and the counters and log are updated as its handler does, nothing else |
| Processor.CorpusProcessor.ProcessOne | requisito2_procesamiento.py:276-308 | one loop iteration changes the counters, log and collection exactly as `Pipeline.Step` |
| Processor.CorpusProcessor.ProcessCorpus | requisito2_procesamiento.py:263-341 | the loop leaves the object in state `Run(old state, files)`; an empty folder returns before the summary; otherwise `_print_summary` runs on the final state, printing the whole summary when the count read answers and stopping with its exception after the counters when it raises |
| Summary.ShownErrors | requisito2_procesamiento.py:338 | `archivos_error[:5]`: the first min(5, n) entries |
| Summary.RemainingErrors | requisito2_procesamiento.py:340-341 | the "más" line is printed exactly when there are more than 5 entries, with the number not shown |
| Summary.ErrorSectionOf | requisito2_procesamiento.py:335 | the error section is absent exactly when the log is empty |
| Summary.Summarize | requisito2_procesamiento.py:326-341 | the summary printed when the count read answers: the three counters, the count, the error section of the log; `SummaryAgreesWithCounter` states its error section |
| Summary.PrintSummary | requisito2_procesamiento.py:319-341 | the summary is printed in full exactly when `count_documents({})` answers; otherwise only the three counters get out, with the read's exception |
| Summary.ErrorSectionAccountsForAll | requisito2_procesamiento.py:335-341 | the shown entries are the first ones, and together with the "más" count they add up to the whole log |
| Summary.SummaryAgreesWithCounter | requisito2_procesamiento.py:326-341 | after a run the error section is absent exactly when `errores` is 0 and otherwise shows min(5, errores) entries |
| Summary.AsWrittenErrorLogNeedsCount | requisito2_procesamiento.py:331-341 | after a run, the error section is printed exactly when some file failed and the count read answered |
| Summary.UnreachableStoreHidesErrorLog | requisito2_procesamiento.py:331-341 | a store that became unreachable fails every file of a non-empty corpus, every failure is logged, and the failing count read keeps the error section from being printed |
| Summary.PrintSummaryGuarded | requisito2_procesamiento.py:331 | with the count read guarded, a failed read loses only the count; the counters and the error section of the log are always printed |
| Summary.GuardedErrorLogAgreesWithCounter | requisito2_procesamiento.py:331-341 | with the count read guarded, the error section agrees with `errores` whether or not the store answers |
| Validation.SizeGroups | requisito2_procesamiento.py:371-381 | the `$group` by embedding length: one group per length present, counting the documents of that length, none empty |
| Validation.ConsistentIff | requisito2_procesamiento.py:383 | the "all 384" verdict holds exactly when the collection is non-empty and every embedding has length 384 |
| Validation.GroupCountsSumToTotal | requisito2_procesamiento.py:381-388 | the group counts add up to the number of documents |
| Validation.Consistent | requisito2_procesamiento.py:383 | `len(sizes) == 1 and sizes[0]['_id'] == 384`; `ConsistentIff` states what it means for the collection |
| Validation.PrimaryCount | requisito2_procesamiento.py:411 | at most the number of members, and 0 exactly when no member is PRIMARY |
| Validation.SinglePrimaryIff | requisito2_procesamiento.py:411-412 | the count is 1 exactly when one member, and no other, is PRIMARY |
| Validation.CheckPrimary | requisito2_procesamiento.py:405-418 | primary check passes exactly when the status is available with a unique PRIMARY; unavailable exactly when `replSetGetStatus` raised; otherwise reports the wrong count |
| Validation.FirstRaised | requisito2_procesamiento.py:360-393 | no exception exactly when every read answers; otherwise the exception of the first read that raises, all earlier ones having answered |
| Validation.ValidateCollection | requisito2_procesamiento.py:353-422 | raises exactly when the total count raises, or the collection is non-empty and a later read raises, with the first read's exception; otherwise returns False with no report exactly on an empty collection, and True whatever the findings, with the total, the size groups, the 384 verdict and the primary check |
| Connection.Connect | requisito2_procesamiento.py:103-136 | the connection loop as written computes `ConnectAsWritten` |
| Connection.DirectLoop | requisito2_procesamiento.py:104-119 | the direct loop as written: a built client is kept even when its `ping` fails, the loop stops at the first answered `ping`, an uncaught exception escapes; `DirectLoopOutcome` states its result |
| Connection.Fallback | requisito2_procesamiento.py:121-136 | the replica-set strategy: connected through the three-port URI when its `ping` answers, `ConnectionError` otherwise |
| Connection.ConnectAsWritten | requisito2_procesamiento.py:103-136 | `_connect_to_mongodb` as written, fallback guarded by `if not self.client`; `AsWrittenFallbackOnlyWithoutClient` and `PingFailuresSkipFallback` state its behaviour |
| Connection.ConnectIntended | requisito2_procesamiento.py:103-136 | the fallback runs whenever no direct `ping` answered; `IntendedConnectsOnlyWhenPinged` states its behaviour |
| Connection.DirectLoopOutcome | requisito2_procesamiento.py:104-119 | the direct loop leaves a pinged client exactly when some ping answered, on the first such port; no client exactly when every constructor raised |
| Connection.AsWrittenFallbackOnlyWithoutClient | requisito2_procesamiento.py:107-122 | as written, the replica set is tried only when every direct constructor raised |
| Connection.PingFailuresSkipFallback | requisito2_procesamiento.py:107-131 | with three failed pings and a working replica set, the code keeps an unpinged client on port 3003, while the intended code reaches the replica set |
| Connection.IntendedConnectsOnlyWhenPinged | requisito2_procesamiento.py:103-136 | as intended: every connection returned has answered a ping, a direct one on the first answering port; the replica set is tried exactly when no direct ping answered; `ConnectionError` exactly when it fails too |

## Left out

- Model loading, logging, `tqdm` progress output and console formatting are left out: they are I/O and change no counted state.
- The elapsed time, the start timestamp and the throughput in `_print_summary` are left out because they are clock readings and floating point. When the run takes no measurable time, the throughput line divides by zero.
- The pause every 50 files (lines 313-314) is left out: it is timing only.
- The `glob` of the corpus folder is left out: the files arrive as an ordered sequence in the order the folder listing gives.
- Universal-newline translation and the equivalence of `latin-1` and `iso-8859-1` are folded into the abstract read outcome per encoding. Characters are Unicode scalar values, so a lone surrogate cannot occur.
- SHA-256 and the embedding model are parameters, not implementations. Embedding values are `real`s whose only observed property is the vector length.
- `create_indexes`, `_show_connection_info`, `main` and its exit codes and closing the client are left out. They are outside the per-file bookkeeping. An exception from a read after the loop is modelled up to where it leaves `process_corpus` or `validate_collection`; that `main` then reports it and skips the later steps is not modelled.
- The sample `find_one` display (lines 361-367) is left out: it is logging only. So are the values of the missing-field counts (lines 392-401), which are always zero because every document has all three fields. Only whether those reads raise is modelled.
- The connection setup is modelled as functions on the attempt outcomes, with the `Connect` loop, rather than as updates of the `self.client` field. Beyond the finding, its outcome only gates the rest of the run.
- Interrupting the loop between files is not modelled: the loop runs to the end of the file list.

## Findings

| source | as written | input that shows it | evidently intended | confidence | as-written member | corrected member |
|---|---|---|---|---|---|---|
| requisito2_procesamiento.py:107-122 | `self.client` is assigned before `ping` is tried, and the replica-set fallback is guarded by `if not self.client`. | Every direct `ping` raises `ServerSelectionTimeoutError` while the replica set answers. The code keeps the unpinged client on port 3003 and never tries the replica set. | Run the fallback whenever no direct `ping` answered, and keep only a client whose `ping` answered. | not executed | Connection.PingFailuresSkipFallback | Connection.IntendedConnectsOnlyWhenPinged |
| requisito2_procesamiento.py:331-341 | `count_documents({})` is read, unguarded, before the error section is printed. | The store becomes unreachable after connecting. Every write fails and is logged, then the count read raises, and none of the logged failures is printed. | Guard the count read, so that the error section is printed exactly when some file failed. | low; not executed | Summary.UnreachableStoreHidesErrorLog | Summary.GuardedErrorLogAgreesWithCounter |
