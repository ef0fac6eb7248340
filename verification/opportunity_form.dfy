/**
 * The reusable admin opportunity form: fields initialised from optional
 * default values with JavaScript's `||` fallbacks, and a submit that hands
 * the parsed data to the caller without any validation.
 */
module OpportunityForm {
  import opened Wrappers
  import opened Schema
  import opened CommaList
  import opened Forms

  /** The form's state: the shared text fields plus the logo URL, which this form also edits. */
  datatype State = State(form: FormText, logoUrl: string)

  /**
   * Initial state. Without defaults every text is empty and the status is
   * active; with defaults each field falls back to `""` when falsy, and the
   * deadline is shown only when it is a non-zero timestamp. Such a timestamp
   * outside the `Date` range makes `toISOString` throw (`None`).
   */
  function Init(defaults: Option<Opportunity>, isoDay: int -> string): (r: Option<State>)
    ensures r.None? <==>
      defaults.Some? && defaults.value.deadline.Some? && defaults.value.deadline.value != 0 &&
      !InDateRange(defaults.value.deadline.value)
    ensures defaults.None? ==> r == Some(State(FormText("", "", "", "", "", "", Active, "", "", "", "", ""), ""))
    ensures defaults.Some? && r.Some? ==>
      var o, f := defaults.value, r.value.form;
      r.value.logoUrl == o.logoUrl && f.title == o.title && f.provider == o.provider &&
      f.description == o.description && f.descriptionFull == o.descriptionFull &&
      f.applyUrl == o.applyUrl && f.status == o.status &&
      f.eligibility == o.eligibility.GetOr("")
    ensures defaults.Some? && r.Some? ==>
      var o, f := defaults.value, r.value.form;
      f.categoryTags == Join(o.categoryTags, ", ") &&
      f.applicableGroups == Join(o.applicableGroups, ", ") &&
      f.regions == (if o.regions.Some? then Join(o.regions.value, ", ") else "") &&
      f.fundingTypes == (if o.fundingTypes.Some? then Join(o.fundingTypes.value, ", ") else "")
    ensures defaults.Some? && r.Some? ==>
      var o, f := defaults.value, r.value.form;
      (o.deadline.None? || o.deadline == Some(0) ==> f.deadline == "") &&
      (o.deadline.Some? && o.deadline.value != 0 ==> f.deadline == isoDay(o.deadline.value))
  {
    match defaults
    case None => Some(State(FormText("", "", "", "", "", "", Active, "", "", "", "", ""), ""))
    case Some(o) =>
      if o.deadline.Some? && o.deadline.value != 0 && !InDateRange(o.deadline.value) then None
      else
        DisplayIsJoin(o.categoryTags);
        DisplayIsJoin(o.applicableGroups);
        DisplayShows(o.regions);
        DisplayShows(o.fundingTypes);
        var deadline := if o.deadline.Some? && o.deadline.value != 0 then isoDay(o.deadline.value) else "";
        Some(State(FormText(OrElse(o.title, ""), OrElse(o.provider, ""), OrElse(o.description, ""),
                            OrElse(o.descriptionFull, ""), OrElse(o.applyUrl, ""), deadline, o.status,
                            Display(Some(o.categoryTags)), Display(Some(o.applicableGroups)),
                            Display(o.regions), Display(o.fundingTypes), o.eligibility.GetOr("")),
                   OrElse(o.logoUrl, "")))
  }

  /**
   * `handleSubmit`: every field is passed through except the four lists,
   * which are split and trimmed, and the deadline, which is parsed. There is
   * no check, so the caller's `onSubmit` always receives a payload.
   */
  function Submit(s: State, parseDate: string -> TimeValue): (p: Payload)
    ensures p.title == s.form.title && p.provider == s.form.provider && p.logoUrl == s.logoUrl
    ensures p.description == s.form.description && p.descriptionFull == s.form.descriptionFull
    ensures p.applyUrl == s.form.applyUrl && p.status == s.form.status && p.eligibility == s.form.eligibility
    ensures p.deadline == parseDate(s.form.deadline)
    ensures p.categoryTags == SplitTrim(s.form.categoryTags) && p.applicableGroups == SplitTrim(s.form.applicableGroups)
    ensures p.regions == SplitTrim(s.form.regions) && p.fundingTypes == SplitTrim(s.form.fundingTypes)
  {
    PayloadOf(s.form, s.logoUrl, parseDate)
  }

  /**
   * Submitting the defaults unchanged reproduces the default record's
   * fields, lists included, when every list is non-empty, comma-free and
   * trimmed. The deadline comes back as the parse of its calendar day (of
   * `""` when it was missing or zero), not as the original timestamp.
   */
  lemma DefaultsReproduced(o: Opportunity, isoDay: int -> string, parseDate: string -> TimeValue)
    requires ListsRepresentable(o)
    requires o.deadline.None? || InDateRange(o.deadline.value)
    ensures var p := Submit(Init(Some(o), isoDay).value, parseDate);
      p.title == o.title && p.provider == o.provider && p.logoUrl == o.logoUrl &&
      p.description == o.description && p.descriptionFull == o.descriptionFull &&
      p.applyUrl == o.applyUrl && p.status == o.status &&
      p.categoryTags == o.categoryTags && p.applicableGroups == o.applicableGroups &&
      Some(p.regions) == o.regions && Some(p.fundingTypes) == o.fundingTypes &&
      p.eligibility == o.eligibility.GetOr("") &&
      p.deadline == parseDate(if o.deadline.Some? && o.deadline.value != 0 then isoDay(o.deadline.value) else "")
  {
    var f := Init(Some(o), isoDay).value.form;
    var p := Submit(Init(Some(o), isoDay).value, parseDate);
    assert p.categoryTags == SplitTrim(f.categoryTags) && f.categoryTags == Display(Some(o.categoryTags));
    assert p.applicableGroups == SplitTrim(f.applicableGroups) && f.applicableGroups == Display(Some(o.applicableGroups));
    assert p.regions == SplitTrim(f.regions) && f.regions == Display(o.regions);
    assert p.fundingTypes == SplitTrim(f.fundingTypes) && f.fundingTypes == Display(o.fundingTypes);
    SavedAsShown(Some(o.categoryTags));
    SavedAsShown(Some(o.applicableGroups));
    SavedAsShown(o.regions);
    SavedAsShown(o.fundingTypes);
  }

  /** A blank form submits blank text, one empty item per list and the parse of `""`. */
  lemma BlankFormSubmitted(isoDay: int -> string, parseDate: string -> TimeValue)
    ensures var p := Submit(Init(None, isoDay).value, parseDate);
      p.title == "" && p.status == Active && p.deadline == parseDate("") &&
      p.categoryTags == [""] && p.regions == [""]
  {
    EmptyListSavedAsBlank();
  }
}
