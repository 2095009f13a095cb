/** The counted content of `_print_summary`: the three counters, the number
    of documents in the collection, and the error section, which lists at
    most five entries of `archivos_error` followed by a "... y N errores
    más" line for the rest. */
module Summary {
  import opened Wrappers
  import opened Pipeline
  import opened Store

  const MaxShownErrors: nat := 5

  /** The error section: the entries listed, and N of the "... y N errores
      más" line when that line is printed. */
  datatype ErrorSection = ErrorSection(shown: seq<ErrorEntry>, remaining: Option<nat>)

  datatype Summary = Summary(processed: nat, duplicates: nat, errors: nat, stored: nat,
                             errorSection: Option<ErrorSection>)

  /** `archivos_error[:5]`. */
  function ShownErrors(errs: seq<ErrorEntry>): (r: seq<ErrorEntry>)
    ensures |r| == if |errs| < MaxShownErrors then |errs| else MaxShownErrors
    ensures r == errs[..|r|]
  {
    if |errs| <= MaxShownErrors then errs else errs[..MaxShownErrors]
  }

  /** The "... y N errores más" line: printed exactly when there are more
      than five entries, with N the number not listed. */
  function RemainingErrors(errs: seq<ErrorEntry>): (r: Option<nat>)
    ensures r.Some? <==> |errs| > MaxShownErrors
    ensures r.Some? ==> r.value == |errs| - MaxShownErrors
  {
    if |errs| > MaxShownErrors then Some(|errs| - MaxShownErrors) else None
  }

  /** The section is printed only when `archivos_error` is non-empty. */
  function ErrorSectionOf(errs: seq<ErrorEntry>): (r: Option<ErrorSection>)
    ensures r.None? <==> errs == []
  {
    if errs == [] then None else Some(ErrorSection(ShownErrors(errs), RemainingErrors(errs)))
  }

  /** The summary printed when `count_documents({})` answers `stored`. */
  function Summarize(st: Stats, stored: nat): Summary {
    Summary(st.processed, st.duplicates, st.errors, stored, ErrorSectionOf(st.errorFiles))
  }

  /** What `_print_summary` gets out before it returns or raises: the whole
      summary, or, when `count_documents({})` raises, only the three
      counters, with the exception then leaving `process_corpus`. */
  datatype Printout = Printed(summary: Summary)
                    | CountRaised(processed: nat, duplicates: nat, errors: nat, reason: string)

  /** `_print_summary` as written: the count is read, unguarded, between
      the counters and the error section. */
  function PrintSummary(st: Stats, stored: nat, count: StoreRead): (r: Printout)
    ensures r.Printed? <==> count.Answered?
    ensures r.Printed? ==> r.summary.stored == stored
                           && r.summary.errorSection == ErrorSectionOf(st.errorFiles)
    ensures r.CountRaised? ==> r.reason == count.reason
    ensures (if r.Printed? then r.summary.processed else r.processed) == st.processed
    ensures (if r.Printed? then r.summary.duplicates else r.duplicates) == st.duplicates
    ensures (if r.Printed? then r.summary.errors else r.errors) == st.errors
  {
    match count
    case Answered => Printed(Summarize(st, stored))
    case ReadRaised(reason) => CountRaised(st.processed, st.duplicates, st.errors, reason)
  }

  /** A summary whose count line may be missing. */
  datatype GuardedSummary = GuardedSummary(processed: nat, duplicates: nat, errors: nat, stored: Option<nat>,
                                           errorSection: Option<ErrorSection>)

  /** `_print_summary` with the count read guarded: a failed read loses
      only the count line. */
  function PrintSummaryGuarded(st: Stats, stored: nat, count: StoreRead): (r: GuardedSummary)
    ensures r.stored.Some? <==> count.Answered?
    ensures r.stored.Some? ==> r.stored.value == stored
    ensures r.errorSection == ErrorSectionOf(st.errorFiles)
    ensures r.processed == st.processed && r.duplicates == st.duplicates && r.errors == st.errors
  {
    GuardedSummary(st.processed, st.duplicates, st.errors,
                   if count.Answered? then Some(stored) else None, ErrorSectionOf(st.errorFiles))
  }

  /** Every logged error is accounted for: the listed entries are the first
      ones in order, and with the count on the "más" line they add up to the
      length of the log. */
  lemma ErrorSectionAccountsForAll(errs: seq<ErrorEntry>)
    requires errs != []
    ensures var sec := ErrorSectionOf(errs).value;
            && sec.shown + errs[|sec.shown|..] == errs
            && |sec.shown| + (if sec.remaining.Some? then sec.remaining.value else 0) == |errs|
            && 0 < |sec.shown| <= MaxShownErrors
  {
    var sec := ErrorSectionOf(errs).value;
    assert sec.shown == errs[..|sec.shown|];
  }

  /** After a run that started with a consistent log, the summary's error
      section agrees with its error counter: it is absent exactly when no
      file failed, and otherwise lists min(5, errors) entries and reports
      the rest. */
  lemma SummaryAgreesWithCounter(sv: Records.Services, s: RunState, files: seq<SourceFile>, stored: nat)
    requires |s.stats.errorFiles| == s.stats.errors
    ensures var sum := Summarize(Run(sv, s, files).stats, stored);
            && (sum.errorSection.None? <==> sum.errors == 0)
            && (sum.errorSection.Some? ==>
                  |sum.errorSection.value.shown| == (if sum.errors < MaxShownErrors then sum.errors else MaxShownErrors)
                  && (sum.errorSection.value.remaining.Some? <==> sum.errors > MaxShownErrors))
  {
    RunKeepsErrorLog(sv, s, files);
  }

  /** As written, the error section reaches the output exactly when some
      file failed and the count read answered. */
  lemma AsWrittenErrorLogNeedsCount(sv: Records.Services, s: RunState, files: seq<SourceFile>, stored: nat,
                                    count: StoreRead)
    requires |s.stats.errorFiles| == s.stats.errors
    ensures var p := PrintSummary(Run(sv, s, files).stats, stored, count);
            (p.Printed? && p.summary.errorSection.Some?)
            <==> count.Answered? && Run(sv, s, files).stats.errors > 0
  {
    RunKeepsErrorLog(sv, s, files);
  }

  /** The input that shows it: a store that became unreachable fails every
      file of a non-empty corpus, and the count read that follows raises
      too, so not one of the logged failures is listed. */
  lemma UnreachableStoreHidesErrorLog(sv: Records.Services, s: RunState, files: seq<SourceFile>, stored: nat,
                                      reason: string)
    requires files != [] && forall i :: 0 <= i < |files| ==> files[i].write.Unreachable?
    requires |s.stats.errorFiles| == s.stats.errors
    ensures var st := Run(sv, s, files).stats;
            && st.errors >= |files| && |st.errorFiles| == st.errors
            && PrintSummary(st, stored, ReadRaised(reason)).CountRaised?
  {
    UnreachableStoreFailsEveryFile(sv, s, files);
    RunKeepsErrorLog(sv, s, files);
  }

  /** With the count read guarded, the error section always agrees with
      the error counter, whether or not the store answers. */
  lemma GuardedErrorLogAgreesWithCounter(sv: Records.Services, s: RunState, files: seq<SourceFile>, stored: nat,
                                         count: StoreRead)
    requires |s.stats.errorFiles| == s.stats.errors
    ensures var g := PrintSummaryGuarded(Run(sv, s, files).stats, stored, count);
            && (g.errorSection.None? <==> g.errors == 0)
            && (g.errorSection.Some? ==>
                  |g.errorSection.value.shown| == (if g.errors < MaxShownErrors then g.errors else MaxShownErrors)
                  && (g.errorSection.value.remaining.Some? <==> g.errors > MaxShownErrors))
  {
    RunKeepsErrorLog(sv, s, files);
  }
}
