/** `CorpusProcessor`: the object whose `stats` dictionary and collection
    `process_file` and `process_corpus` update in place. Its methods are
    proved to compute exactly the functions of module Pipeline, so the
    lemmas proved there hold of the object. */
module Processor {
  import opened Wrappers
  import opened Text
  import opened Hashing
  import opened Decoding
  import opened Records
  import opened Store
  import opened Pipeline
  import opened Summary

  class CorpusProcessor {
    /** The hash and embedding model the processor was set up with. */
    const services: Services

    /** `self.stats['procesados']`, `['errores']`, `['duplicados']` and
        `['archivos_error']`. */
    var processed: nat
    var errors: nat
    var duplicates: nat
    var errorFiles: seq<ErrorEntry>

    /** `self.collection`. */
    var collection: Collection

    function CurrentStats(): Stats
      reads this
    {
      Stats(processed, errors, duplicates, errorFiles)
    }

    function State(): RunState
      reads this
    {
      RunState(CurrentStats(), collection)
    }

    /** Fresh statistics over an already connected collection, which may
        hold the documents of earlier runs. */
    constructor (services: Services, collection: Collection)
      ensures this.services == services
      ensures State() == RunState(Stats(0, 0, 0, []), collection)
    {
      this.services := services;
      this.collection := collection;
      processed, errors, duplicates, errorFiles := 0, 0, 0, [];
    }

    /** `process_file`: the document of `f`, or None after logging the
        failure in `archivos_error` (the error counter is the caller's). */
    method ProcessFile(f: SourceFile) returns (doc: Option<Document>)
      modifies this`errorFiles
      ensures doc == PrepareDocument(services, f.readAs).ToOption()
      ensures errorFiles == if doc.Some? then old(errorFiles)
                            else old(errorFiles) + [ErrorEntry(f.name, PrepareDocument(services, f.readAs).reason)]
    {
      var decoded := NoEncoding;
      var i := 0;
      while i < |Encodings|
        invariant 0 <= i <= |Encodings|
        invariant DecodeWithFallback(f.readAs) == DecodeFrom(f.readAs, i)
      {
        match f.readAs(Encodings[i]) {
          case Read(content) =>
            decoded := Decoded(Strip(content));
            break;
          case UnicodeDecodeError =>
            i := i + 1;
          case OpenFailed(reason) =>
            decoded := ReadFailed(reason);
            break;
        }
      }
      assert decoded == DecodeWithFallback(f.readAs);

      var result: Result<Document>;
      match decoded {
        case ReadFailed(reason) =>
          result := Err(reason);
        case NoEncoding =>
          result := Err(NoEncodingMessage);
        case Decoded(texto) =>
          if texto == [] {
            result := Err(EmptyFileMessage);
          } else {
            var docId := Fingerprint(services.sha256, texto);
            match services.encode(texto) {
              case ModelError(reason) =>
                result := Err(reason);
              case Embedded(vector) =>
                result := Ok(Document(docId, texto, vector));
            }
          }
      }
      assert result == PrepareDocument(services, f.readAs);

      match result {
        case Ok(d) =>
          doc := Some(d);
        case Err(reason) =>
          errorFiles := errorFiles + [ErrorEntry(f.name, reason)];
          doc := None;
      }
    }

    /** `collection.with_options(write_concern=majority).insert_one(doc)`. */
    method InsertOne(doc: Document, fault: WriteFault) returns (reply: WriteReply)
      modifies this`collection
      ensures InsertResult(reply, collection) == Store.InsertOne(old(collection), doc, fault)
    {
      var r := Store.InsertOne(collection, doc, fault);
      reply := r.reply;
      collection := r.collection;
    }

    /** One iteration of `process_corpus`'s loop (its `try` block and
        handlers): process the file, write its document, and tally the
        outcome. No outcome escapes it. */
    method ProcessOne(f: SourceFile)
      modifies this
      ensures State() == Step(services, old(State()), f)
    {
      ghost var before := State();
      var documento := ProcessFile(f);
      match documento {
        case None =>
          StepOnRejected(services, before, f);
          errors := errors + 1;
        case Some(d) =>
          assert State() == before;
          StepOnDocument(services, before, f);
          var _ := WriteDocument(f, d);
      }
    }

    /** The write of a file's document and the handler that counts it:
        `procesados`, the `DuplicateKeyError` handler, or the generic
        handler with its log entry. */
    method WriteDocument(f: SourceFile, d: Document) returns (reply: WriteReply)
      modifies this
      ensures reply == Store.InsertOne(old(collection), d, f.write).reply
      ensures State() == RunState(Tally(old(CurrentStats()), f, ReplyOutcome(reply)),
                                  Store.InsertOne(old(collection), d, f.write).collection)
    {
      ghost var before := CurrentStats();
      reply := InsertOne(d, f.write);
      match reply {
        case Acknowledged =>
          processed := processed + 1;
        case DuplicateKeyError =>
          duplicates := duplicates + 1;
        case WriteFailed(reason) =>
          errors := errors + 1;
          errorFiles := errorFiles + [ErrorEntry(f.name, reason)];
      }
      assert CurrentStats() == Tally(before, f, ReplyOutcome(reply));
    }

    /** `process_corpus` over the files found in the corpus folder, in
        order: every file is classified and tallied and none aborts the
        loop. An empty folder returns before the summary is printed; `count`
        is how the summary's `count_documents({})` ends, and when it raises
        the error section is never printed and the exception leaves this
        method. */
    method ProcessCorpus(files: seq<SourceFile>, count: StoreRead) returns (summary: Option<Printout>)
      modifies this
      ensures State() == Run(services, old(State()), files)
      ensures summary == if files == [] then None else Some(PrintSummary(CurrentStats(), |collection|, count))
    {
      if |files| == 0 {
        return None;
      }
      var idx := 0;
      assert files[..0] == [];
      while idx < |files|
        invariant 0 <= idx <= |files|
        invariant State() == Run(services, old(State()), files[..idx])
      {
        assert files[..idx + 1][..idx] == files[..idx];
        ProcessOne(files[idx]);
        idx := idx + 1;
      }
      assert files[..idx] == files;
      summary := Some(PrintSummary(CurrentStats(), |collection|, count));
    }
  }
}
