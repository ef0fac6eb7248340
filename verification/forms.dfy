/**
 * What the three admin opportunity forms share: the text the user edits,
 * the payload sent to the server, and the outcome of the awaited mutation.
 * Date text is turned into a timestamp by `new Date(text).getTime()`, which
 * is a parameter here and may give NaN.
 */
module Forms {
  import opened Wrappers
  import opened Schema
  import opened CommaList

  /** `new Date(text).getTime()`: a timestamp, or NaN for text that is no date. */
  datatype TimeValue = Time(ms: int) | InvalidDate

  /**
   * The largest magnitude of a valid `Date` time value, 8.64e15 ms (section
   * 21.4.1.1 "Time Values and Time Range" of ECMAScript 2024). A `Date` made
   * from a number beyond it is invalid, and its `toISOString` throws a
   * `RangeError`.
   */
  const MaxTimeValue: int := 8_640_000_000_000_000

  predicate InDateRange(ms: int) {
    -MaxTimeValue <= ms <= MaxTimeValue
  }

  /** The editable fields; list fields are comma-separated text. */
  datatype FormText = FormText(
    title: string,
    provider: string,
    description: string,
    descriptionFull: string,
    applyUrl: string,
    deadline: string,
    status: OpportunityStatus,
    categoryTags: string,
    applicableGroups: string,
    regions: string,
    fundingTypes: string,
    eligibility: string)

  /** The arguments of the create and update mutations, less the id. */
  datatype Payload = Payload(
    title: string,
    provider: string,
    logoUrl: string,
    description: string,
    descriptionFull: string,
    applyUrl: string,
    deadline: TimeValue,
    status: OpportunityStatus,
    categoryTags: seq<string>,
    applicableGroups: seq<string>,
    regions: seq<string>,
    fundingTypes: seq<string>,
    eligibility: string)

  /** Parses every list field and the deadline; the other fields go through as typed. */
  function PayloadOf(form: FormText, logoUrl: string, parseDate: string -> TimeValue): (p: Payload)
    ensures p.title == form.title && p.provider == form.provider && p.logoUrl == logoUrl
    ensures p.description == form.description && p.descriptionFull == form.descriptionFull
    ensures p.applyUrl == form.applyUrl && p.status == form.status && p.eligibility == form.eligibility
    ensures p.deadline == parseDate(form.deadline)
    ensures p.categoryTags == SplitTrim(form.categoryTags) && p.applicableGroups == SplitTrim(form.applicableGroups)
    ensures p.regions == SplitTrim(form.regions) && p.fundingTypes == SplitTrim(form.fundingTypes)
  {
    Payload(form.title, form.provider, logoUrl, form.description, form.descriptionFull, form.applyUrl,
            parseDate(form.deadline), form.status,
            SplitTrim(form.categoryTags), SplitTrim(form.applicableGroups),
            SplitTrim(form.regions), SplitTrim(form.fundingTypes), form.eligibility)
  }

  /** What an awaited mutation throws: an `Error` with a message, or some other value. */
  datatype Thrown = ErrorObject(message: string) | NonError

  /** How the awaited call ended. */
  datatype CallOutcome = Resolved | Threw(thrown: Thrown)

  /** `err instanceof Error ? err.message : fallback`. */
  function ErrorMessage(thrown: Thrown, fallback: string): string {
    match thrown
    case ErrorObject(m) => m
    case NonError => fallback
  }

  /**
   * The state a submit handler leaves: the error shown, whether the spinner
   * is still on, and whether the parent's success callback was invoked.
   */
  datatype SubmitResult = SubmitResult(error: Option<string>, isSubmitting: bool, succeeded: bool)

  /**
   * The common `try { await mutation; onSuccess() } catch { setError } finally
   * { setIsSubmitting(false) }` tail, entered with the error already cleared.
   */
  function Settle(outcome: CallOutcome, fallback: string): (r: SubmitResult)
    ensures !r.isSubmitting
    ensures r.succeeded <==> outcome.Resolved?
    ensures r.error.None? <==> outcome.Resolved?
    ensures outcome == Threw(NonError) ==> r.error == Some(fallback)
    ensures forall m :: outcome == Threw(ErrorObject(m)) ==> r.error == Some(m)
  {
    match outcome
    case Resolved => SubmitResult(None, false, true)
    case Threw(t) => SubmitResult(Some(ErrorMessage(t, fallback)), false, false)
  }

  /** The list fields of a record, as the round trip through the text fields sees them. */
  predicate ListsRepresentable(o: Opportunity) {
    |o.categoryTags| > 0 && Representable(o.categoryTags) &&
    |o.applicableGroups| > 0 && Representable(o.applicableGroups) &&
    o.regions.Some? && |o.regions.value| > 0 && Representable(o.regions.value) &&
    o.fundingTypes.Some? && |o.fundingTypes.value| > 0 && Representable(o.fundingTypes.value)
  }
}
