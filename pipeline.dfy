/** The per-file state machine of `process_corpus` as functions on values:
    each file ends Inserted, Duplicate or Failed, and the run statistics
    (`procesados`, `errores`, `duplicados`, `archivos_error`) and the
    collection change accordingly. The class in module Processor is proved
    to compute exactly `Run`. */
module Pipeline {
  import opened Wrappers
  import opened Hashing
  import opened Decoding
  import opened Records
  import opened Store

  /** One `.txt` file as the run sees it: its name (used only in error
      entries), what reading it under each encoding does, and what the
      replica set does with its write. */
  datatype SourceFile = SourceFile(name: string, readAs: Encoding -> ReadOutcome, write: WriteFault)

  /** An entry of `archivos_error`: `{'archivo': name, 'error': str(e)}`. */
  datatype ErrorEntry = ErrorEntry(file: string, error: string)

  /** `self.stats` without the start time. */
  datatype Stats = Stats(processed: nat, errors: nat, duplicates: nat, errorFiles: seq<ErrorEntry>)

  datatype Outcome = Inserted | Duplicate | Failed(reason: string)

  datatype RunState = RunState(stats: Stats, collection: Collection)

  /** The number of files the counters account for. */
  function Visited(st: Stats): nat {
    st.processed + st.errors + st.duplicates
  }

  /** The file yields a document and its write reaches a primary. */
  predicate Written(sv: Services, f: SourceFile) {
    PrepareDocument(sv, f.readAs).Ok? && !f.write.Unreachable?
  }

  /** One iteration of the loop: `process_file`, then `insert_one` when it
      gave a document. Returns the outcome and the collection afterwards. */
  function Attempt(sv: Services, c: Collection, f: SourceFile): (Outcome, Collection) {
    match PrepareDocument(sv, f.readAs)
    case Err(reason) => (Failed(reason), c)
    case Ok(doc) =>
      var ins := InsertOne(c, doc, f.write);
      (ReplyOutcome(ins.reply), ins.collection)
  }

  /** How `process_corpus` classifies what `insert_one` did: success,
      the `DuplicateKeyError` handler, or the generic handler. */
  function ReplyOutcome(reply: WriteReply): Outcome {
    match reply
    case Acknowledged => Inserted
    case DuplicateKeyError => Duplicate
    case WriteFailed(reason) => Failed(reason)
  }

  /** How a file is classified: Inserted exactly when it yields a document
      with a new `_id` and the write is acknowledged; Duplicate exactly when
      its write reaches a primary that already holds the `_id`; Failed
      otherwise, with the collection changed only by a write that reached a
      primary. */
  lemma AttemptClassifies(sv: Services, c: Collection, f: SourceFile)
    ensures Attempt(sv, c, f).0 == Inserted
            <==> (PrepareDocument(sv, f.readAs).Ok? && f.write == NoFault
                  && PrepareDocument(sv, f.readAs).value.id !in c)
    ensures Attempt(sv, c, f).0 == Duplicate
            <==> (Written(sv, f) && PrepareDocument(sv, f.readAs).value.id in c)
    ensures PrepareDocument(sv, f.readAs).Err?
            ==> Attempt(sv, c, f) == (Failed(PrepareDocument(sv, f.readAs).reason), c)
    ensures Attempt(sv, c, f).0.Failed? && PrepareDocument(sv, f.readAs).Ok?
            ==> Attempt(sv, c, f).0.reason == f.write.reason
    ensures Attempt(sv, c, f).1
            == if Written(sv, f) then InsertOne(c, PrepareDocument(sv, f.readAs).value, f.write).collection else c
  {
    match PrepareDocument(sv, f.readAs)
    case Err(_) =>
    case Ok(doc) =>
      var ins := InsertOne(c, doc, f.write);
      assert Attempt(sv, c, f) == (ReplyOutcome(ins.reply), ins.collection);
      match f.write
      case Unreachable(reason) =>
        assert ins == InsertResult(WriteFailed(reason), c);
      case _ =>
        if doc.id in c {
          InsertStoredIsDuplicate(c, doc, f.write);
        } else {
          assert ins.collection == c[doc.id := doc];
        }
  }

  /** The statistics update for one outcome. */
  function Tally(st: Stats, f: SourceFile, o: Outcome): Stats {
    match o
    case Inserted => st.(processed := st.processed + 1)
    case Duplicate => st.(duplicates := st.duplicates + 1)
    case Failed(reason) => st.(errors := st.errors + 1, errorFiles := st.errorFiles + [ErrorEntry(f.name, reason)])
  }

  function Step(sv: Services, s: RunState, f: SourceFile): RunState {
    var r := Attempt(sv, s.collection, f);
    RunState(Tally(s.stats, f, r.0), r.1)
  }

  /** A file `process_file` rejects is an error, logged with its message,
      and the collection is left alone. */
  lemma StepOnRejected(sv: Services, s: RunState, f: SourceFile)
    requires PrepareDocument(sv, f.readAs).Err?
    ensures Step(sv, s, f)
            == RunState(s.stats.(errors := s.stats.errors + 1,
                                 errorFiles := s.stats.errorFiles + [ErrorEntry(f.name, PrepareDocument(sv, f.readAs).reason)]),
                        s.collection)
  {
  }

  /** A file with a document is classified by the reply to its write. */
  lemma StepOnDocument(sv: Services, s: RunState, f: SourceFile)
    requires PrepareDocument(sv, f.readAs).Ok?
    ensures var ins := InsertOne(s.collection, PrepareDocument(sv, f.readAs).value, f.write);
            Step(sv, s, f) == RunState(Tally(s.stats, f, ReplyOutcome(ins.reply)), ins.collection)
  {
  }

  /** A file whose document is already stored, and whose own write reaches
      a primary, is a duplicate: only `duplicados` moves and the collection
      is unchanged. */
  lemma StepOnStoredDocument(sv: Services, s: RunState, f: SourceFile)
    requires Written(sv, f) && PrepareDocument(sv, f.readAs).value.id in s.collection
    ensures Step(sv, s, f) == RunState(s.stats.(duplicates := s.stats.duplicates + 1), s.collection)
  {
    var doc := PrepareDocument(sv, f.readAs).value;
    InsertStoredIsDuplicate(s.collection, doc, f.write);
    StepOnDocument(sv, s, f);
    assert Tally(s.stats, f, ReplyOutcome(DuplicateKeyError)) == s.stats.(duplicates := s.stats.duplicates + 1);
  }

  /** The whole loop over `files`, in order. */
  function Run(sv: Services, s: RunState, files: seq<SourceFile>): RunState
    decreases |files|
  {
    if files == [] then s
    else Step(sv, Run(sv, s, files[..|files| - 1]), files[|files| - 1])
  }

  /** The number of files whose document reaches the store. */
  function CountWritten(sv: Services, files: seq<SourceFile>): nat
    decreases |files|
  {
    if files == [] then 0
    else CountWritten(sv, files[..|files| - 1]) + (if Written(sv, files[|files| - 1]) then 1 else 0)
  }

  /** One file moves exactly one counter by one; an entry is logged exactly
      when the error counter moves, naming the file; a blank, unreadable or
      unembeddable file leaves the collection alone. */
  lemma StepTalliesOnce(sv: Services, s: RunState, f: SourceFile)
    ensures var t := Step(sv, s, f).stats;
            && Visited(t) == Visited(s.stats) + 1
            && t.processed - s.stats.processed + t.duplicates - s.stats.duplicates + t.errors - s.stats.errors == 1
            && t.processed >= s.stats.processed && t.duplicates >= s.stats.duplicates && t.errors >= s.stats.errors
            && (t.errors == s.stats.errors ==> t.errorFiles == s.stats.errorFiles)
            && (t.errors > s.stats.errors ==> exists e :: t.errorFiles == s.stats.errorFiles + [ErrorEntry(f.name, e)])
    ensures PrepareDocument(sv, f.readAs).Err? ==> Step(sv, s, f).collection == s.collection
  {
    var (o, c) := Attempt(sv, s.collection, f);
    match o
    case Failed(reason) =>
      assert Step(sv, s, f).stats.errorFiles == s.stats.errorFiles + [ErrorEntry(f.name, reason)];
    case _ =>
  }

  /** Over a whole run the counters account for every file, the error log
      grows exactly as the error counter does (so `len(archivos_error) ==
      errores` is kept), and nothing already logged is lost. */
  lemma {:induction false} RunTallies(sv: Services, s: RunState, files: seq<SourceFile>)
    ensures var t := Run(sv, s, files).stats;
            && Visited(t) == Visited(s.stats) + |files|
            && |t.errorFiles| - t.errors == |s.stats.errorFiles| - s.stats.errors
            && s.stats.errorFiles <= t.errorFiles
            && t.processed >= s.stats.processed && t.duplicates >= s.stats.duplicates && t.errors >= s.stats.errors
    decreases |files|
  {
    if files != [] {
      var init := files[..|files| - 1];
      RunTallies(sv, s, init);
      StepTalliesOnce(sv, Run(sv, s, init), files[|files| - 1]);
    }
  }

  /** A run started with a consistent error log ends with one. */
  lemma RunKeepsErrorLog(sv: Services, s: RunState, files: seq<SourceFile>)
    requires |s.stats.errorFiles| == s.stats.errors
    ensures |Run(sv, s, files).stats.errorFiles| == Run(sv, s, files).stats.errors
  {
    RunTallies(sv, s, files);
  }

  /** Every entry of the collection stays a well-formed document under its
      own `_id`. */
  lemma {:induction false} RunKeepsWellFormed(sv: Services, s: RunState, files: seq<SourceFile>)
    requires WellFormedCollection(sv, s.collection)
    ensures WellFormedCollection(sv, Run(sv, s, files).collection)
    decreases |files|
  {
    if files != [] {
      var init := files[..|files| - 1];
      var f := files[|files| - 1];
      RunKeepsWellFormed(sv, s, init);
      var c := Run(sv, s, init).collection;
      if Written(sv, f) {
        InsertKeepsWellFormed(sv, c, PrepareDocument(sv, f.readAs).value, f.write);
      }
    }
  }

  /** Documents are never updated or removed: what was stored before the run
      is still stored, unchanged, after it. */
  lemma {:induction false} RunNeverOverwrites(sv: Services, s: RunState, files: seq<SourceFile>)
    ensures forall k :: k in s.collection ==>
              (k in Run(sv, s, files).collection && Run(sv, s, files).collection[k] == s.collection[k])
    decreases |files|
  {
    if files != [] {
      RunNeverOverwrites(sv, s, files[..|files| - 1]);
      AttemptClassifies(sv, Run(sv, s, files[..|files| - 1]).collection, files[|files| - 1]);
    }
  }

  /** For every file whose write reached a primary, its document's `_id`
      is a key of the collection at the end of the run. */
  lemma {:induction false} RunStoresWrittenDocuments(sv: Services, s: RunState, files: seq<SourceFile>)
    ensures forall i :: 0 <= i < |files| && Written(sv, files[i])
                        ==> PrepareDocument(sv, files[i].readAs).value.id in Run(sv, s, files).collection
    decreases |files|
  {
    if files != [] {
      var init := files[..|files| - 1];
      RunStoresWrittenDocuments(sv, s, init);
      var mid := Run(sv, s, init);
      RunNeverOverwrites(sv, mid, [files[|files| - 1]]);
      assert Run(sv, mid, [files[|files| - 1]]) == Run(sv, s, files) by {
        assert [files[|files| - 1]][..0] == [];
      }
      forall i | 0 <= i < |files| && Written(sv, files[i])
        ensures PrepareDocument(sv, files[i].readAs).value.id in Run(sv, s, files).collection
      {
        if i < |files| - 1 {
          assert files[i] == init[i];
        }
      }
    }
  }

  /** One step adds at most the file's own document. */
  lemma StepAddsOnlyItsDocument(sv: Services, s: RunState, f: SourceFile)
    ensures forall k :: k in Step(sv, s, f).collection ==>
              (k in s.collection && Step(sv, s, f).collection[k] == s.collection[k])
              || (Written(sv, f) && Step(sv, s, f).collection[k] == PrepareDocument(sv, f.readAs).value)
  {
  }

  /** `d` is the document of one of `files` whose write reached a primary. */
  predicate FromCorpus(sv: Services, files: seq<SourceFile>, d: Document) {
    exists i :: 0 <= i < |files| && Written(sv, files[i]) && d == PrepareDocument(sv, files[i].readAs).value
  }

  /** Appending a file keeps every earlier file's document in the corpus
      and adds the new file's own. */
  lemma FromCorpusAppend(sv: Services, files: seq<SourceFile>, f: SourceFile, d: Document)
    requires FromCorpus(sv, files, d) || (Written(sv, f) && d == PrepareDocument(sv, f.readAs).value)
    ensures FromCorpus(sv, files + [f], d)
  {
    if FromCorpus(sv, files, d) {
      var i :| 0 <= i < |files| && Written(sv, files[i]) && d == PrepareDocument(sv, files[i].readAs).value;
      assert (files + [f])[i] == files[i];
    } else {
      assert (files + [f])[|files|] == f;
    }
  }

  /** Nothing but the corpus' own documents is added: every entry is either
      from before the run or is the document of one of the files. */
  lemma {:induction false} RunAddsOnlyCorpusDocuments(sv: Services, s: RunState, files: seq<SourceFile>)
    ensures forall k :: k in Run(sv, s, files).collection ==>
              k in s.collection || FromCorpus(sv, files, Run(sv, s, files).collection[k])
    decreases |files|
  {
    if files != [] {
      var init := files[..|files| - 1];
      var f := files[|files| - 1];
      assert files == init + [f];
      RunAddsOnlyCorpusDocuments(sv, s, init);
      var midState := Run(sv, s, init);
      var end := Step(sv, midState, f).collection;
      StepAddsOnlyItsDocument(sv, midState, f);
      forall k | k in end && k !in s.collection
        ensures FromCorpus(sv, init + [f], end[k])
      {
        FromCorpusAppend(sv, init, f, end[k]);
      }
    }
  }

  /** A run over files whose documents are all stored already changes
      nothing in the collection and inserts nothing: each written file is a
      duplicate, each other file an error. */
  lemma {:induction false} RunOverStoredCorpus(sv: Services, s: RunState, files: seq<SourceFile>)
    requires forall i :: 0 <= i < |files| && Written(sv, files[i])
                         ==> PrepareDocument(sv, files[i].readAs).value.id in s.collection
    ensures Run(sv, s, files).collection == s.collection
    ensures Run(sv, s, files).stats.processed == s.stats.processed
    ensures Run(sv, s, files).stats.duplicates == s.stats.duplicates + CountWritten(sv, files)
    ensures Run(sv, s, files).stats.errors == s.stats.errors + |files| - CountWritten(sv, files)
    decreases |files|
  {
    if files != [] {
      var init := files[..|files| - 1];
      forall i | 0 <= i < |init| && Written(sv, init[i])
        ensures PrepareDocument(sv, init[i].readAs).value.id in s.collection
      {
        assert init[i] == files[i];
      }
      RunOverStoredCorpus(sv, s, init);
      CountWrittenBound(sv, init);
      AttemptClassifies(sv, s.collection, files[|files| - 1]);
      StepTalliesOnce(sv, Run(sv, s, init), files[|files| - 1]);
    }
  }

  lemma {:induction false} CountWrittenBound(sv: Services, files: seq<SourceFile>)
    ensures CountWritten(sv, files) <= |files|
    decreases |files|
  {
    if files != [] {
      CountWrittenBound(sv, files[..|files| - 1]);
    }
  }

  /** Re-running the pipeline over the same corpus is idempotent: the
      collection is exactly as the first run left it, nothing is inserted,
      every file whose write reaches the store is counted a duplicate and
      every other file an error. */
  lemma RerunIsIdempotent(sv: Services, s: RunState, files: seq<SourceFile>)
    ensures var first := Run(sv, s, files);
            var second := Run(sv, first, files);
            && second.collection == first.collection
            && second.stats.processed == first.stats.processed
            && second.stats.duplicates == first.stats.duplicates + CountWritten(sv, files)
            && second.stats.errors == first.stats.errors + |files| - CountWritten(sv, files)
  {
    RunStoresWrittenDocuments(sv, s, files);
    RunOverStoredCorpus(sv, Run(sv, s, files), files);
  }

  /** When no write times out waiting for acknowledgement, `procesados` counts
      exactly the documents the run added to the collection. */
  lemma {:induction false} ProcessedCountsNewDocuments(sv: Services, s: RunState, files: seq<SourceFile>)
    requires forall i :: 0 <= i < |files| ==> !files[i].write.WriteConcernTimeout?
    ensures |Run(sv, s, files).collection| == |s.collection| + Run(sv, s, files).stats.processed - s.stats.processed
    ensures Run(sv, s, files).stats.processed >= s.stats.processed
    decreases |files|
  {
    if files != [] {
      var init := files[..|files| - 1];
      var f := files[|files| - 1];
      forall i | 0 <= i < |init| ensures !init[i].write.WriteConcernTimeout? {
        assert init[i] == files[i];
      }
      ProcessedCountsNewDocuments(sv, s, init);
      var c := Run(sv, s, init).collection;
      AttemptClassifies(sv, c, f);
      if Written(sv, f) {
        var doc := PrepareDocument(sv, f.readAs).value;
        if doc.id !in c {
          assert InsertOne(c, doc, f.write).collection.Keys == c.Keys + {doc.id};
          assert |c.Keys + {doc.id}| == |c.Keys| + 1;
        }
      }
    }
  }

  /** A store that rejects every write (unreachable after connecting): every
      file fails, the collection is untouched, and the loop completes. */
  lemma {:induction false} UnreachableStoreFailsEveryFile(sv: Services, s: RunState, files: seq<SourceFile>)
    requires forall i :: 0 <= i < |files| ==> files[i].write.Unreachable?
    ensures Run(sv, s, files).collection == s.collection
    ensures Run(sv, s, files).stats.errors == s.stats.errors + |files|
    ensures Run(sv, s, files).stats.processed == s.stats.processed
    ensures Run(sv, s, files).stats.duplicates == s.stats.duplicates
    decreases |files|
  {
    if files != [] {
      var init := files[..|files| - 1];
      forall i | 0 <= i < |init| ensures init[i].write.Unreachable? {
        assert init[i] == files[i];
      }
      UnreachableStoreFailsEveryFile(sv, s, init);
      AttemptClassifies(sv, s.collection, files[|files| - 1]);
    }
  }

  /** Running one more file is one more `Step`. */
  lemma RunAppend(sv: Services, s: RunState, files: seq<SourceFile>, f: SourceFile)
    ensures Run(sv, s, files + [f]) == Step(sv, Run(sv, s, files), f)
  {
    assert (files + [f])[..|files|] == files;
  }

  /** A written file whose text equals that of the file written at
      position `i` earlier in the run finds its `_id` already stored. */
  lemma EarlierCopyStored(sv: Services, s: RunState, files: seq<SourceFile>, i: nat, f: SourceFile)
    requires Written(sv, f)
    requires i < |files| && Written(sv, files[i])
    requires PrepareDocument(sv, files[i].readAs).value.text == PrepareDocument(sv, f.readAs).value.text
    ensures PrepareDocument(sv, f.readAs).value.id in Run(sv, s, files).collection
  {
    SameTextSameDocument(sv, files[i].readAs, f.readAs);
    RunStoresWrittenDocuments(sv, s, files);
  }

  /** Within one run, a file whose decoded text equals that of a file
      written earlier (at position `i`), and whose own write reaches a
      primary, is a duplicate: the collection keeps the earlier copy and
      only `duplicados` moves. */
  lemma SecondCopyIsDuplicate(sv: Services, s: RunState, files: seq<SourceFile>, i: nat, f: SourceFile)
    requires Written(sv, f)
    requires i < |files| && Written(sv, files[i])
    requires PrepareDocument(sv, files[i].readAs).value.text == PrepareDocument(sv, f.readAs).value.text
    ensures var before := Run(sv, s, files);
            var after := Run(sv, s, files + [f]);
            && after.collection == before.collection
            && after.stats == before.stats.(duplicates := before.stats.duplicates + 1)
  {
    EarlierCopyStored(sv, s, files, i, f);
    RunAppend(sv, s, files, f);
    StepOnStoredDocument(sv, Run(sv, s, files), f);
  }
}
