/** Reading a corpus file as text: the encodings are tried in a fixed order
    and the first one under which the read does not raise
    `UnicodeDecodeError` gives the text, stripped of surrounding whitespace.
    An `open()`/`read()` failure of any other kind is not retried: it
    escapes the loop and fails the file. */
module Decoding {
  import opened Text

  datatype Encoding = Utf8 | Latin1 | Iso8859_1 | Cp1252

  /** The fallback order. */
  const Encodings: seq<Encoding> := [Utf8, Latin1, Iso8859_1, Cp1252]

  /** What reading the whole file under one encoding does: yields the text
      (`f.read()`), raises `UnicodeDecodeError`, or raises another error
      (missing file, permissions, ...) with its message. */
  datatype ReadOutcome = Read(content: string) | UnicodeDecodeError | OpenFailed(reason: string)

  /** The result of the fallback loop. */
  datatype DecodeResult = Decoded(text: string) | NoEncoding | ReadFailed(reason: string)

  /** The fallback loop from the `i`-th encoding on. */
  function DecodeFrom(readAs: Encoding -> ReadOutcome, i: nat): DecodeResult
    requires i <= |Encodings|
    decreases |Encodings| - i
  {
    if i == |Encodings| then NoEncoding
    else
      match readAs(Encodings[i])
      case Read(content) => Decoded(Strip(content))
      case UnicodeDecodeError => DecodeFrom(readAs, i + 1)
      case OpenFailed(reason) => ReadFailed(reason)
  }

  function DecodeWithFallback(readAs: Encoding -> ReadOutcome): DecodeResult {
    DecodeFrom(readAs, 0)
  }

  /** Every encoding before the `k`-th raises `UnicodeDecodeError`. */
  predicate RejectedBefore(readAs: Encoding -> ReadOutcome, k: nat)
    requires k <= |Encodings|
  {
    forall j :: 0 <= j < k ==> readAs(Encodings[j]).UnicodeDecodeError?
  }

  /** What happens at the first encoding that does not raise
      `UnicodeDecodeError`, or NoEncoding when there is none. */
  function OutcomeAt(readAs: Encoding -> ReadOutcome, k: nat): DecodeResult
    requires k <= |Encodings|
  {
    if k == |Encodings| then NoEncoding
    else
      match readAs(Encodings[k])
      case Read(content) => Decoded(Strip(content))
      case UnicodeDecodeError => NoEncoding
      case OpenFailed(reason) => ReadFailed(reason)
  }

  lemma {:induction false} DecodeFromFirstAccepted(readAs: Encoding -> ReadOutcome, i: nat, k: nat)
    requires i <= k <= |Encodings|
    requires RejectedBefore(readAs, k)
    requires k < |Encodings| ==> !readAs(Encodings[k]).UnicodeDecodeError?
    ensures DecodeFrom(readAs, i) == OutcomeAt(readAs, k)
    decreases k - i
  {
    if i < k {
      assert readAs(Encodings[i]).UnicodeDecodeError?;
      DecodeFromFirstAccepted(readAs, i + 1, k);
    }
  }

  /** The ordered fallback: if `k` is the first encoding whose read does not
      raise `UnicodeDecodeError`, the loop's result is exactly what that read
      does (its stripped text, or its error); if all four raise, no encoding
      could read the file. */
  lemma FallbackTakesFirstAccepted(readAs: Encoding -> ReadOutcome, k: nat)
    requires k <= |Encodings|
    requires RejectedBefore(readAs, k)
    requires k < |Encodings| ==> !readAs(Encodings[k]).UnicodeDecodeError?
    ensures DecodeWithFallback(readAs) == OutcomeAt(readAs, k)
    ensures DecodeWithFallback(readAs) == NoEncoding <==> k == |Encodings|
  {
    DecodeFromFirstAccepted(readAs, 0, k);
  }

  /** A decoded text is always already stripped. */
  lemma {:induction false} DecodedTextIsStripped(readAs: Encoding -> ReadOutcome, i: nat)
    requires i <= |Encodings|
    requires DecodeFrom(readAs, i).Decoded?
    ensures Strip(DecodeFrom(readAs, i).text) == DecodeFrom(readAs, i).text
    decreases |Encodings| - i
  {
    match readAs(Encodings[i])
    case Read(content) => StripIdempotent(content);
    case UnicodeDecodeError => DecodedTextIsStripped(readAs, i + 1);
    case OpenFailed(_) =>
  }

  /** NoEncoding is reported only when all four encodings raise
      `UnicodeDecodeError`; since `latin-1` maps every byte to a character,
      a read under it that does not raise rules that error out. */
  lemma NoEncodingOnlyIfAllReject(readAs: Encoding -> ReadOutcome)
    ensures DecodeWithFallback(readAs) == NoEncoding <==> RejectedBefore(readAs, |Encodings|)
    ensures !readAs(Latin1).UnicodeDecodeError? ==> DecodeWithFallback(readAs) != NoEncoding
  {
    if RejectedBefore(readAs, |Encodings|) {
      FallbackTakesFirstAccepted(readAs, |Encodings|);
    }
  }
}
