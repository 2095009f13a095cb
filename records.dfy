/** The persisted record and `process_file`'s computation of it: decode with
    fallback, reject blank text, hash, embed, assemble. */
module Records {
  import opened Wrappers
  import opened Text
  import opened Hashing
  import opened Decoding

  /** An embedding vector. Only its length is observed (the float values are
      the embedding model's business). */
  type Embedding = seq<real>

  /** What the sentence-transformer's `encode(text).tolist()` does: yields a
      vector, or raises with an error message. */
  datatype EmbedOutcome = Embedded(vector: Embedding) | ModelError(reason: string)

  /** The two collaborators a document is computed with. Both are functions
      of their input: equal texts hash and embed alike. */
  datatype Services = Services(sha256: Sha256, encode: string -> EmbedOutcome)

  /** The stored document `{"_id": ..., "texto": ..., "embedding": ...}`:
      exactly these three fields. */
  datatype Document = Document(id: Digest, text: string, embedding: Embedding)

  const NoEncodingMessage: string := "No se pudo leer el archivo con ningún encoding"
  const EmptyFileMessage: string := "Archivo vacío"

  /** What every document the pipeline produces satisfies: its `_id` is the
      fingerprint of its text, the text is non-blank and already stripped,
      and the embedding is the model's vector for that text. */
  predicate WellFormedDocument(sv: Services, d: Document) {
    && d.id == Fingerprint(sv.sha256, d.text)
    && d.text != []
    && Strip(d.text) == d.text
    && sv.encode(d.text) == Embedded(d.embedding)
  }

  /** `process_file` without its bookkeeping: the document for a file, or
      the message of the exception that rejects it. */
  function PrepareDocument(sv: Services, readAs: Encoding -> ReadOutcome): (r: Result<Document>)
    ensures r.Ok? ==> WellFormedDocument(sv, r.value)
    ensures r.Ok? ==> DecodeWithFallback(readAs) == Decoded(r.value.text)
    ensures r.Ok? <==> DecodeWithFallback(readAs).Decoded? && DecodeWithFallback(readAs).text != []
                       && sv.encode(DecodeWithFallback(readAs).text).Embedded?
    ensures DecodeWithFallback(readAs) == NoEncoding ==> r == Err(NoEncodingMessage)
    ensures DecodeWithFallback(readAs) == Decoded([]) ==> r == Err(EmptyFileMessage)
    ensures DecodeWithFallback(readAs).ReadFailed? ==> r == Err(DecodeWithFallback(readAs).reason)
    ensures DecodeWithFallback(readAs).Decoded? && DecodeWithFallback(readAs).text != []
            && sv.encode(DecodeWithFallback(readAs).text).ModelError?
            ==> r == Err(sv.encode(DecodeWithFallback(readAs).text).reason)
  {
    match DecodeWithFallback(readAs)
    case ReadFailed(reason) => Err(reason)
    case NoEncoding => Err(NoEncodingMessage)
    case Decoded(texto) =>
      if texto == [] then Err(EmptyFileMessage)
      else
        var docId := Fingerprint(sv.sha256, texto);
        match sv.encode(texto)
        case ModelError(reason) => Err(reason)
        case Embedded(vector) =>
          DecodedTextIsStripped(readAs, 0);
          Ok(Document(docId, texto, vector))
  }

  /** Documents are content-addressed. Two files whose decoded texts are
      equal give the same document; two files that give the same `_id` with
      different texts exhibit a SHA-256 collision. */
  lemma SameTextSameDocument(sv: Services, a: Encoding -> ReadOutcome, b: Encoding -> ReadOutcome)
    requires PrepareDocument(sv, a).Ok? && PrepareDocument(sv, b).Ok?
    ensures PrepareDocument(sv, a).value.text == PrepareDocument(sv, b).value.text
            ==> PrepareDocument(sv, a) == PrepareDocument(sv, b)
    ensures PrepareDocument(sv, a).value.id == PrepareDocument(sv, b).value.id
            && PrepareDocument(sv, a).value.text != PrepareDocument(sv, b).value.text
            ==> Collides(sv.sha256, Utf8Encode(PrepareDocument(sv, a).value.text),
                                    Utf8Encode(PrepareDocument(sv, b).value.text))
  {
    var da, db := PrepareDocument(sv, a).value, PrepareDocument(sv, b).value;
    if da.id == db.id && da.text != db.text {
      SharedIdIsHashCollision(sv.sha256, da.text, db.text);
    }
  }
}
