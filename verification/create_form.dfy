/**
 * The admin "create opportunity" form: a required-field check, then the
 * create mutation with the list fields parsed from their comma text.
 */
module CreateForm {
  import opened Wrappers
  import opened Schema
  import opened CommaList
  import opened Forms

  const RequiredMessage: string := "Please fill in all required fields"
  const CreateFailed: string := "Failed to create opportunity"

  /** The form as first shown: every text empty and the status active. */
  const InitialForm: FormText := FormText("", "", "", "", "", "", Active, "", "", "", "", "")

  /** Title, provider, apply URL and deadline must be non-empty; the descriptions are not checked. */
  predicate RequiredFilled(form: FormText) {
    form.title != "" && form.provider != "" && form.applyUrl != "" && form.deadline != ""
  }

  /** The mutation's arguments (if it was called) and the state the handler leaves. */
  datatype Attempt = Attempt(request: Option<Payload>, result: SubmitResult)

  /**
   * `handleSubmit`: the required check throws before the mutation is
   * called, so its message lands in the error like any failure. The form
   * has no status control: the status sent is always active.
   */
  function HandleSubmit(form: FormText, logoUrl: string, parseDate: string -> TimeValue, outcome: CallOutcome)
    : (r: Attempt)
    ensures r.request.Some? <==> RequiredFilled(form)
    ensures !RequiredFilled(form) ==> r.result == SubmitResult(Some(RequiredMessage), false, false)
    ensures r.request.Some? ==>
      var p := r.request.value;
      p.status == Active && p.title == form.title && p.provider == form.provider &&
      p.applyUrl == form.applyUrl && p.logoUrl == logoUrl && p.deadline == parseDate(form.deadline) &&
      p.description == form.description && p.descriptionFull == form.descriptionFull &&
      p.eligibility == form.eligibility &&
      p.categoryTags == SplitTrim(form.categoryTags) && p.applicableGroups == SplitTrim(form.applicableGroups) &&
      p.regions == SplitTrim(form.regions) && p.fundingTypes == SplitTrim(form.fundingTypes)
    ensures !r.result.isSubmitting
    ensures r.result.succeeded <==> r.request.Some? && outcome == Resolved
    ensures r.request.Some? && outcome == Resolved ==> r.result.error.None?
    ensures forall m :: r.request.Some? && outcome == Threw(ErrorObject(m)) ==> r.result.error == Some(m)
    ensures r.request.Some? && outcome == Threw(NonError) ==> r.result.error == Some(CreateFailed)
  {
    if !RequiredFilled(form) then
      Attempt(None, SubmitResult(Some(RequiredMessage), false, false))
    else
      Attempt(Some(PayloadOf(form.(status := Active), logoUrl, parseDate)), Settle(outcome, CreateFailed))
  }

  /** Whether the mutation is called does not depend on either description. */
  lemma DescriptionsNotChecked(form: FormText, d: string, df: string, logoUrl: string,
                               parseDate: string -> TimeValue, outcome: CallOutcome)
    ensures HandleSubmit(form.(description := d, descriptionFull := df), logoUrl, parseDate, outcome).request.Some?
        <==> HandleSubmit(form, logoUrl, parseDate, outcome).request.Some?
  {
  }

  /**
   * Each list is the comma text split and trimmed, one item per comma plus
   * one, with nothing dropped: an empty field is sent as one empty item.
   */
  lemma ListsKeepEveryPiece(form: FormText, logoUrl: string, parseDate: string -> TimeValue, outcome: CallOutcome)
    requires RequiredFilled(form)
    ensures var p := HandleSubmit(form, logoUrl, parseDate, outcome).request.value;
      |p.categoryTags| == CountChar(form.categoryTags, ',') + 1 &&
      (form.regions == "" ==> p.regions == [""])
  {
    if form.regions == "" {
      EmptyListSavedAsBlank();
      assert Display(None) == "";
    }
  }
}
