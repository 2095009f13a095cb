/** The `Discursos` collection as a map from `_id` to document, and
    `insert_one` with write concern `majority` / `wtimeout=5000` on it. */
module Store {
  import opened Hashing
  import opened Records

  type Collection = map<Digest, Document>

  /** What the replica set does with one write, besides the duplicate-key
      check: nothing goes wrong; the request never reaches a primary (no
      server, network error); or the primary applies the write but a
      majority does not acknowledge it within `wtimeout`. */
  datatype WriteFault = NoFault | Unreachable(reason: string) | WriteConcernTimeout(reason: string)

  /** What `insert_one` returns or raises: success, `DuplicateKeyError`, or
      any other error with its message. */
  datatype WriteReply = Acknowledged | DuplicateKeyError | WriteFailed(reason: string)

  datatype InsertResult = InsertResult(reply: WriteReply, collection: Collection)

  /** How a read of the collection (`count_documents`, `find_one`,
      `aggregate`) ends: it answers from the collection, or it raises (no
      member reachable, a timeout), and nothing in the program catches it. */
  datatype StoreRead = Answered | ReadRaised(reason: string)

  /** A collection in which every entry is a well-formed document stored
      under its own `_id`. */
  predicate WellFormedCollection(sv: Services, c: Collection) {
    forall k :: k in c ==> c[k].id == k && WellFormedDocument(sv, c[k])
  }

  /** `insert_one(doc)`. An `_id` already present is rejected with
      `DuplicateKeyError`, also under a write-concern timeout: the driver
      raises a write error ahead of any write-concern error; a new `_id` is
      added;
      an unreachable store changes nothing. Existing entries are never
      overwritten. */
  function InsertOne(c: Collection, doc: Document, fault: WriteFault): (r: InsertResult)
    ensures r.reply == DuplicateKeyError <==> !fault.Unreachable? && doc.id in c
    ensures r.reply == Acknowledged <==> fault == NoFault && doc.id !in c
    ensures r.reply.WriteFailed? ==> !fault.NoFault? && r.reply.reason == fault.reason
    ensures r.collection.Keys == if !fault.Unreachable? then c.Keys + {doc.id} else c.Keys
    ensures forall k :: k in c ==> r.collection[k] == c[k]
    ensures doc.id in r.collection ==> r.collection[doc.id] == if doc.id in c then c[doc.id] else doc
  {
    match fault
    case Unreachable(reason) => InsertResult(WriteFailed(reason), c)
    case _ =>
      if doc.id in c then InsertResult(DuplicateKeyError, c)
      else
        var added := c[doc.id := doc];
        match fault
        case NoFault => InsertResult(Acknowledged, added)
        case WriteConcernTimeout(reason) => InsertResult(WriteFailed(reason), added)
  }

  /** A write that reaches a primary holding the `_id` is the
      `DuplicateKeyError` and leaves the collection exactly as it was. */
  lemma InsertStoredIsDuplicate(c: Collection, doc: Document, fault: WriteFault)
    requires !fault.Unreachable? && doc.id in c
    ensures InsertOne(c, doc, fault) == InsertResult(DuplicateKeyError, c)
  {
  }

  /** Inserting keeps a collection well-formed when the document is. */
  lemma InsertKeepsWellFormed(sv: Services, c: Collection, doc: Document, fault: WriteFault)
    requires WellFormedCollection(sv, c) && WellFormedDocument(sv, doc)
    ensures WellFormedCollection(sv, InsertOne(c, doc, fault).collection)
  {
  }

  /** Writing the same document again is idempotent: once a write reached
      the store, a retry is a duplicate (or fails without effect) and the
      collection stays as it was. */
  lemma RetryIsDuplicate(c: Collection, doc: Document, first: WriteFault, retry: WriteFault)
    requires !first.Unreachable?
    ensures var c1 := InsertOne(c, doc, first).collection;
            var r2 := InsertOne(c1, doc, retry);
            r2.collection == c1
            && r2.reply == (if retry.Unreachable? then WriteFailed(retry.reason) else DuplicateKeyError)
  {
  }
}
