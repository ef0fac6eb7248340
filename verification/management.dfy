/**
 * The admin opportunities list: query arguments derived from the status
 * filter and search box, the result-count line, and the duplicate and
 * archive handlers around their (unmodelled) server mutations.
 */
module Management {
  import opened Wrappers
  import opened Strings
  import opened Tables
  import opened Forms

  /** The four filter buttons. */
  datatype StatusFilter = ShowAll | ShowActive | ShowInactive | ShowArchived

  function FilterName(f: StatusFilter): string {
    match f
    case ShowAll => "all"
    case ShowActive => "active"
    case ShowInactive => "inactive"
    case ShowArchived => "archived"
  }

  /** The button labels are the only values the filter can take. */
  function ParseFilter(t: string): (r: Option<StatusFilter>)
    ensures r.Some? <==> t == "all" || t == "active" || t == "inactive" || t == "archived"
  {
    if t == "all" then Some(ShowAll)
    else if t == "active" then Some(ShowActive)
    else if t == "inactive" then Some(ShowInactive)
    else if t == "archived" then Some(ShowArchived)
    else None
  }

  lemma FilterRoundTrip(f: StatusFilter)
    ensures ParseFilter(FilterName(f)) == Some(f)
  {
  }

  /** The arguments of the list query. */
  datatype QueryArgs = QueryArgs(status: string, search: string, includeArchived: bool)

  /** Status and search go through verbatim; archived records are asked for only under the archived filter. */
  function Query(filter: StatusFilter, search: string): (q: QueryArgs)
    ensures ParseFilter(q.status) == Some(filter)
    ensures q.search == search
    ensures q.includeArchived <==> filter == ShowArchived
  {
    FilterRoundTrip(filter);
    QueryArgs(FilterName(filter), search, FilterName(filter) == "archived")
  }

  const Loading: string := "Loading..."

  /**
   * The count line as the component writes it: the suffix "ies" is appended
   * to the whole word, so every count but one reads "opportunityies".
   */
  function CountLabelAsWritten(count: Option<nat>): string {
    match count
    case None => Loading
    case Some(n) => NatToString(n) + " opportunity" + (if n != 1 then "ies" else "")
  }

  /** Every count but one, zero included, is followed by the misspelt " opportunityies". */
  lemma AsWrittenMisspellsPlural(n: nat)
    requires n != 1
    ensures var digits := NatToString(n);
      var r := CountLabelAsWritten(Some(n));
      |r| > |digits| && r[|digits|..] == " opportunityies"
  {
    var digits := NatToString(n);
    var r := CountLabelAsWritten(Some(n));
    assert r == digits + " opportunityies";
  }

  /** Two results are announced as "2 opportunityies". */
  lemma AsWrittenTwo()
    ensures CountLabelAsWritten(Some(2)) == "2 opportunityies"
  {
    assert NatToString(2) == [DigitChar(2)];
  }

  /** The count line with the plural spelled as intended. */
  function CountLabel(count: Option<nat>): string {
    match count
    case None => Loading
    case Some(n) => NatToString(n) + (if n == 1 then " opportunity" else " opportunities")
  }

  /**
   * The corrected line is "Loading..." until the list arrives, then the
   * count in decimal followed by the singular for one and the correctly
   * spelled plural otherwise, zero included.
   */
  lemma CountLabelMeaning(n: nat)
    ensures CountLabel(None) == Loading
    ensures var digits := NatToString(n);
      var r := CountLabel(Some(n));
      |r| > |digits| && DigitsValue(r[..|digits|]) == n &&
      r[|digits|..] == (if n == 1 then " opportunity" else " opportunities")
  {
    NatToStringRoundTrip(n);
    var digits := NatToString(n);
    var r := CountLabel(Some(n));
    assert r[..|digits|] == digits;
  }

  /** The two row actions, each a server mutation. */
  datatype RowAction = Duplicate | Archive

  /** Every request names the same placeholder administrator. */
  const PlaceholderAdmin: string := "current-user"

  datatype ActionRequest = ActionRequest(action: RowAction, id: Id, adminId: string)

  function FailureMessage(a: RowAction): string {
    match a
    case Duplicate => "Failed to duplicate opportunity"
    case Archive => "Failed to archive opportunity"
  }

  /** What a row action leaves: the request sent, the error shown and how often the parent refreshed. */
  datatype ActionResult = ActionResult(request: ActionRequest, error: Option<string>, refreshes: nat)

  /**
   * `handleDuplicate` / `handleArchive`: on success the parent refreshes
   * once and the error line is left as it was; on failure the fixed message
   * replaces it and nothing refreshes.
   */
  function HandleAction(a: RowAction, id: Id, outcome: CallOutcome, error: Option<string>): (r: ActionResult)
    ensures r.request.action == a && r.request.id == id && r.request.adminId == PlaceholderAdmin
    ensures r.refreshes == 1 <==> outcome == Resolved
    ensures r.refreshes == 0 <==> outcome.Threw?
    ensures outcome == Resolved ==> r.error == error
    ensures outcome.Threw? ==> r.error == Some(FailureMessage(a))
  {
    var request := ActionRequest(a, id, PlaceholderAdmin);
    match outcome
    case Resolved => ActionResult(request, error, 1)
    case Threw(_) => ActionResult(request, Some(FailureMessage(a)), 0)
  }

  /** The failure message does not depend on what was thrown, and the two actions' messages differ. */
  lemma FailureIgnoresThrown(a: RowAction, id: Id, t1: Thrown, t2: Thrown, e1: Option<string>, e2: Option<string>)
    ensures HandleAction(a, id, Threw(t1), e1) == HandleAction(a, id, Threw(t2), e2)
    ensures FailureMessage(Duplicate) != FailureMessage(Archive)
  {
    assert FailureMessage(Duplicate)[10] != FailureMessage(Archive)[10];
  }
}
