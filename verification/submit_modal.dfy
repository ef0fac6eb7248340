/**
 * The public "submit an opportunity" modal: a form of six text fields,
 * a submit handler that posts it to the endpoint, and an auto-dismiss timer.
 * The `fetch` outcome is an input, and the 3-second timer firing is an
 * explicit event; `open` stands for the parent's state that `onOpenChange`
 * sets.
 */
module SubmitModal {
  import opened Wrappers
  import SubmitRoute
  import Submissions

  datatype Field = OpportunityName | OpportunityType | Description | Link | UserName | UserTwitter

  datatype FormData = FormData(
    opportunityName: string,
    opportunityType: string,
    description: string,
    link: string,
    userName: string,
    userTwitter: string)

  const EmptyForm: FormData := FormData("", "", "", "", "", "")

  function Get(f: FormData, field: Field): string {
    match field
    case OpportunityName => f.opportunityName
    case OpportunityType => f.opportunityType
    case Description => f.description
    case Link => f.link
    case UserName => f.userName
    case UserTwitter => f.userTwitter
  }

  /** `handleChange`: `{...prev, [name]: value}`. */
  function HandleChange(f: FormData, field: Field, value: string): (r: FormData)
    ensures Get(r, field) == value
    ensures forall other :: other != field ==> Get(r, other) == Get(f, other)
  {
    match field
    case OpportunityName => f.(opportunityName := value)
    case OpportunityType => f.(opportunityType := value)
    case Description => f.(description := value)
    case Link => f.(link := value)
    case UserName => f.(userName := value)
    case UserTwitter => f.(userTwitter := value)
  }

  /** The client-side required check: the same four fields must be non-empty. */
  predicate RequiredFilled(f: FormData) {
    f.opportunityName != "" && f.opportunityType != "" && f.description != "" && f.link != ""
  }

  /** `JSON.stringify(formData)` as the endpoint reads it back. */
  function BodyOf(f: FormData): SubmitRoute.Body {
    SubmitRoute.Body(
      SubmitRoute.Text(f.opportunityName), SubmitRoute.Text(f.opportunityType),
      SubmitRoute.Text(f.description), SubmitRoute.Text(f.link),
      SubmitRoute.Text(f.userName), SubmitRoute.Text(f.userTwitter))
  }

  /** Client and server apply the same test to a form. */
  lemma ClientServerAgree(f: FormData)
    ensures RequiredFilled(f) <==> SubmitRoute.RequiredPresent(BodyOf(f))
  {
  }

  datatype ModalState = ModalState(
    form: FormData,
    isSubmitting: bool,
    showSuccess: bool,
    open: bool,
    pendingTimers: nat)

  /** The modal as the page mounts it: empty and closed (`submitModalOpen` starts false). */
  const Initial: ModalState := ModalState(EmptyForm, false, false, false, 0)

  /** How the `fetch` ended: an ok response, a non-ok response, or a thrown error. */
  datatype FetchOutcome = ResponseOk | ResponseNotOk | FetchThrew

  /** The state after a handler, the body it posted (if any) and the alert it raised (if any). */
  datatype Step = Step(state: ModalState, sent: Option<FormData>, alert: Option<string>)

  const FillAll: string := "Please fill in all required fields"
  const TryAgain: string := "Failed to submit. Please try again."

  /**
   * `handleSubmit`: with a required field empty, alerts and does nothing
   * else; otherwise posts the form, then on an ok response shows the success
   * banner and arms the timer, and on failure alerts and clears
   * `isSubmitting`, keeping the form.
   */
  function HandleSubmit(s: ModalState, outcome: FetchOutcome): (r: Step)
    ensures !RequiredFilled(s.form) ==> r == Step(s, None, Some(FillAll))
    ensures RequiredFilled(s.form) ==> r.sent == Some(s.form) && r.state.form == s.form
    ensures RequiredFilled(s.form) && outcome == ResponseOk ==>
      r.state == s.(isSubmitting := true, showSuccess := true, pendingTimers := s.pendingTimers + 1)
      && r.alert.None?
    ensures RequiredFilled(s.form) && outcome != ResponseOk ==>
      r.state == s.(isSubmitting := false) && r.alert == Some(TryAgain)
  {
    if !RequiredFilled(s.form) then Step(s, None, Some(FillAll))
    else
      var submitting := s.(isSubmitting := true);
      match outcome
      case ResponseOk =>
        Step(submitting.(showSuccess := true, pendingTimers := s.pendingTimers + 1), Some(s.form), None)
      case _ =>
        Step(submitting.(isSubmitting := false), Some(s.form), Some(TryAgain))
  }

  /**
   * The auto-dismiss timer fires: hides the banner, resets all six fields and
   * closes the modal. `isSubmitting` is left as it is.
   */
  function TimerFires(s: ModalState): (r: ModalState)
    ensures s.pendingTimers == 0 ==> r == s
    ensures s.pendingTimers > 0 ==>
      && r.form == EmptyForm && !r.showSuccess && !r.open
      && r.isSubmitting == s.isSubmitting
      && r.pendingTimers == s.pendingTimers - 1
  {
    if s.pendingTimers == 0 then s
    else s.(showSuccess := false, form := EmptyForm, open := false, pendingTimers := s.pendingTimers - 1)
  }

  /** Whatever the modal sends, the endpoint accepts. */
  lemma SentFormsAccepted(s: ModalState, outcome: FetchOutcome, queue: Submissions.Queue)
    requires HandleSubmit(s, outcome).sent.Some?
    ensures SubmitRoute.Post(SubmitRoute.JsonObject(BodyOf(HandleSubmit(s, outcome).sent.value)), queue).0.status == 200
  {
    ClientServerAgree(s.form);
  }

  /** On the success path `isSubmitting` is never reset: still set after the timer fired. */
  lemma SuccessLeavesSubmitting(s: ModalState)
    requires RequiredFilled(s.form)
    ensures var after := TimerFires(HandleSubmit(s, ResponseOk).state);
      after.isSubmitting && after.form == EmptyForm && !after.showSuccess && !after.open
  {
  }

  /** The form is on screen: the modal is open and the success banner is not showing. */
  predicate FormShown(s: ModalState) {
    s.open && !s.showSuccess
  }

  /** The inputs, the close button and the submit button are enabled. */
  predicate Usable(s: ModalState) {
    FormShown(s) && !s.isSubmitting
  }

  /** Typing into a field: ignored unless the field is shown and not `disabled={isSubmitting}`. */
  function Input(s: ModalState, field: Field, value: string): (r: ModalState)
    ensures r.(form := s.form) == s
    ensures Usable(s) ==> Get(r.form, field) == value
    ensures Usable(s) ==> forall other :: other != field ==> Get(r.form, other) == Get(s.form, other)
    ensures !Usable(s) ==> r == s
  {
    if Usable(s) then s.(form := HandleChange(s.form, field, value)) else s
  }

  /** The header's close button, rendered with the form and `disabled={isSubmitting}`. */
  function CloseButton(s: ModalState): (r: ModalState)
    ensures r.(open := s.open) == s
    ensures !r.open <==> !s.open || Usable(s)
  {
    if Usable(s) then s.(open := false) else s
  }

  /** A click on the backdrop closes the modal unless a submission is marked in progress. */
  function Backdrop(s: ModalState): (r: ModalState)
    ensures r.(open := s.open) == s
    ensures !r.open <==> !s.open || !s.isSubmitting
  {
    if s.open && !s.isSubmitting then s.(open := false) else s
  }

  /**
   * The browser's constraint validation: the link input is `type="url"`, so
   * a non-empty link must be a valid absolute URL (the parameter `urlValid`)
   * before the `submit` event fires. No other input carries a constraint.
   */
  predicate PassesConstraints(f: FormData, urlValid: string -> bool) {
    f.link == "" || urlValid(f.link)
  }

  /**
   * The submit button: a disabled button (and the form it belongs to)
   * submits nothing, and a form failing constraint validation never reaches
   * `handleSubmit`; the browser's own message is not modelled.
   */
  function PressSubmit(s: ModalState, outcome: FetchOutcome, urlValid: string -> bool): (r: Step)
    ensures !Usable(s) || !PassesConstraints(s.form, urlValid) ==> r == Step(s, None, None)
    ensures Usable(s) ==>
      (r.sent.Some? <==> RequiredFilled(s.form) && PassesConstraints(s.form, urlValid))
    ensures r.sent.Some? ==> r.sent == Some(s.form)
  {
    if Usable(s) && PassesConstraints(s.form, urlValid) then HandleSubmit(s, outcome) else Step(s, None, None)
  }

  /** The parent page opens the modal again; the modal's own state survives, as it stays mounted. */
  function Reopen(s: ModalState): (r: ModalState)
    ensures r.open && r.(open := s.open) == s
  {
    s.(open := true)
  }

  /**
   * As written: after a successful submission and the timer, the reopened
   * modal shows an empty form that no event inside it can change, submit or
   * close.
   */
  lemma ReopenedAfterSuccessIsStuck(s: ModalState, field: Field, value: string, outcome: FetchOutcome,
                                    urlValid: string -> bool)
    requires Usable(s) && RequiredFilled(s.form) && urlValid(s.form.link)
    ensures var stuck := Reopen(TimerFires(PressSubmit(s, ResponseOk, urlValid).state));
      && stuck.open && stuck.form == EmptyForm
      && Input(stuck, field, value) == stuck
      && CloseButton(stuck) == stuck
      && Backdrop(stuck) == stuck
      && PressSubmit(stuck, outcome, urlValid) == Step(stuck, None, None)
  {
  }

  /** The evidently intended timer: it also clears `isSubmitting`. */
  function TimerFiresCorrected(s: ModalState): (r: ModalState)
    ensures s.pendingTimers == 0 ==> r == s
    ensures s.pendingTimers > 0 ==>
      && r.form == EmptyForm && !r.showSuccess && !r.open && !r.isSubmitting
      && r.pendingTimers == s.pendingTimers - 1
  {
    if s.pendingTimers == 0 then s
    else s.(showSuccess := false, form := EmptyForm, open := false, isSubmitting := false,
            pendingTimers := s.pendingTimers - 1)
  }

  /**
   * With the corrected timer, the modal reopened after a success behaves like
   * a fresh one: the fields take input, the close button closes it, and a
   * filled form is sent.
   */
  lemma CorrectedReopenIsUsable(s: ModalState, field: Field, value: string, urlValid: string -> bool)
    requires Usable(s) && RequiredFilled(s.form) && urlValid(s.form.link)
    ensures var again := Reopen(TimerFiresCorrected(PressSubmit(s, ResponseOk, urlValid).state));
      && Usable(again) && again.form == EmptyForm
      && Get(Input(again, field, value).form, field) == value
      && !CloseButton(again).open
      && !Backdrop(again).open
  {
  }

  /** With the corrected timer, a filled form in the reopened modal is sent again. */
  lemma CorrectedReopenSubmits(s: ModalState, next: FormData, outcome: FetchOutcome, urlValid: string -> bool)
    requires Usable(s) && RequiredFilled(s.form) && urlValid(s.form.link)
    requires RequiredFilled(next) && urlValid(next.link)
    ensures var again := Reopen(TimerFiresCorrected(PressSubmit(s, ResponseOk, urlValid).state));
      PressSubmit(again.(form := next), outcome, urlValid).sent == Some(next)
  {
  }
}
