/**
 * The admin "edit opportunity" dialog: the record is serialised into the
 * form's text fields on open and parsed back into an update on save.
 */
module EditDialog {
  import opened Wrappers
  import opened Schema
  import opened CommaList
  import opened Tables
  import opened Forms

  const UpdateFailed: string := "Failed to update opportunity"

  /**
   * The dialog opens for a record whose deadline is present and inside the
   * `Date` range: otherwise `new Date(deadline).toISOString()` throws.
   */
  predicate Opens(o: Opportunity) {
    o.deadline.Some? && InDateRange(o.deadline.value)
  }

  /**
   * The initial form for a record. The deadline is shown as a calendar day
   * (`toISOString().split("T")[0]`, the parameter `isoDay`); a record whose
   * deadline is missing or outside the `Date` range makes `toISOString`
   * throw, so the dialog does not open.
   */
  function Open(o: Opportunity, isoDay: int -> string): (r: Option<FormText>)
    ensures r.None? <==> o.deadline.None? || !InDateRange(o.deadline.value)
    ensures r.Some? ==> r.value.deadline == isoDay(o.deadline.value)
    ensures r.Some? ==>
      r.value.title == o.title && r.value.provider == o.provider &&
      r.value.description == o.description && r.value.descriptionFull == o.descriptionFull &&
      r.value.applyUrl == o.applyUrl && r.value.status == o.status
    ensures r.Some? ==>
      r.value.categoryTags == Join(o.categoryTags, ", ") &&
      r.value.applicableGroups == Join(o.applicableGroups, ", ")
    ensures r.Some? ==>
      r.value.regions == (if o.regions.Some? then Join(o.regions.value, ", ") else "") &&
      r.value.fundingTypes == (if o.fundingTypes.Some? then Join(o.fundingTypes.value, ", ") else "")
    ensures r.Some? ==> r.value.eligibility == o.eligibility.GetOr("")
  {
    match o.deadline
    case None => None
    case Some(ms) =>
      if !InDateRange(ms) then None
      else
        DisplayIsJoin(o.categoryTags);
        DisplayIsJoin(o.applicableGroups);
        DisplayShows(o.regions);
        DisplayShows(o.fundingTypes);
        Some(FormText(o.title, o.provider, o.description, o.descriptionFull, o.applyUrl, isoDay(ms), o.status,
                      Display(Some(o.categoryTags)), Display(Some(o.applicableGroups)),
                      Display(o.regions), Display(o.fundingTypes), o.eligibility.GetOr("")))
  }

  /** The update mutation's arguments: the record's id and the parsed form. */
  datatype UpdateRequest = UpdateRequest(id: Id, payload: Payload)

  /**
   * `handleSubmit`: always sends the update, with the original id and the
   * original logo (the dialog never changes it), then settles.
   */
  function HandleSubmit(id: Id, original: Opportunity, form: FormText, parseDate: string -> TimeValue,
                        outcome: CallOutcome): (r: (UpdateRequest, SubmitResult))
    ensures r.0.id == id && r.0.payload.logoUrl == original.logoUrl
    ensures var p := r.0.payload;
      p.title == form.title && p.provider == form.provider &&
      p.description == form.description && p.descriptionFull == form.descriptionFull &&
      p.applyUrl == form.applyUrl && p.status == form.status && p.eligibility == form.eligibility &&
      p.deadline == parseDate(form.deadline)
    ensures var p := r.0.payload;
      p.categoryTags == SplitTrim(form.categoryTags) && p.applicableGroups == SplitTrim(form.applicableGroups) &&
      p.regions == SplitTrim(form.regions) && p.fundingTypes == SplitTrim(form.fundingTypes)
    ensures !r.1.isSubmitting
    ensures r.1.succeeded <==> outcome == Resolved
    ensures outcome == Resolved ==> r.1.error.None?
    ensures forall m :: outcome == Threw(ErrorObject(m)) ==> r.1.error == Some(m)
    ensures outcome == Threw(NonError) ==> r.1.error == Some(UpdateFailed)
  {
    (UpdateRequest(id, PayloadOf(form, original.logoUrl, parseDate)), Settle(outcome, UpdateFailed))
  }

  /** The update produced by opening a record and saving it without edits. */
  function Resave(id: Id, o: Opportunity, isoDay: int -> string, parseDate: string -> TimeValue): UpdateRequest
    requires Opens(o)
  {
    HandleSubmit(id, o, Open(o, isoDay).value, parseDate, Resolved).0
  }

  /**
   * Open-then-save returns every list unchanged when each is non-empty and
   * its items are comma-free and trimmed; the other text fields come back
   * as they were, and a missing eligibility comes back as `""`. The deadline
   * does not: it comes back as the parse of its calendar day.
   */
  lemma ResavePreserves(id: Id, o: Opportunity, isoDay: int -> string, parseDate: string -> TimeValue)
    requires Opens(o) && ListsRepresentable(o)
    ensures var u := Resave(id, o, isoDay, parseDate);
      u.id == id && u.payload.logoUrl == o.logoUrl &&
      u.payload.title == o.title && u.payload.provider == o.provider &&
      u.payload.description == o.description && u.payload.descriptionFull == o.descriptionFull &&
      u.payload.applyUrl == o.applyUrl && u.payload.status == o.status &&
      u.payload.categoryTags == o.categoryTags && u.payload.applicableGroups == o.applicableGroups &&
      Some(u.payload.regions) == o.regions && Some(u.payload.fundingTypes) == o.fundingTypes &&
      u.payload.eligibility == o.eligibility.GetOr("") &&
      u.payload.deadline == parseDate(isoDay(o.deadline.value))
  {
    var f := Open(o, isoDay).value;
    var p := Resave(id, o, isoDay, parseDate).payload;
    assert p.categoryTags == SplitTrim(f.categoryTags) && f.categoryTags == Display(Some(o.categoryTags));
    assert p.applicableGroups == SplitTrim(f.applicableGroups) && f.applicableGroups == Display(Some(o.applicableGroups));
    assert p.regions == SplitTrim(f.regions) && f.regions == Display(o.regions);
    assert p.fundingTypes == SplitTrim(f.fundingTypes) && f.fundingTypes == Display(o.fundingTypes);
    SavedAsShown(Some(o.categoryTags));
    SavedAsShown(Some(o.applicableGroups));
    SavedAsShown(o.regions);
    SavedAsShown(o.fundingTypes);
  }

  /** The tag list survives open-then-save exactly when it is non-empty and representable. */
  lemma ResaveTagsIff(id: Id, o: Opportunity, isoDay: int -> string, parseDate: string -> TimeValue)
    requires Opens(o)
    ensures Resave(id, o, isoDay, parseDate).payload.categoryTags == o.categoryTags
        <==> |o.categoryTags| > 0 && Representable(o.categoryTags)
  {
    RoundTrip(o.categoryTags);
  }

  /** A missing or empty regions list is saved back as one empty item. */
  lemma ResaveBlankRegions(id: Id, o: Opportunity, isoDay: int -> string, parseDate: string -> TimeValue)
    requires Opens(o) && (o.regions.None? || o.regions == Some([]))
    ensures Resave(id, o, isoDay, parseDate).payload.regions == [""]
  {
    EmptyListSavedAsBlank();
  }
}
