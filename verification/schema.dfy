/**
 * The record shapes of the four tables and their enumerations. A field the
 * schema marks `v.optional` is an `Option`; a `v.union` of literals is a
 * datatype whose constructors are the literals; `v.number()` timestamps
 * (milliseconds since the epoch) are integers.
 */
module Schema {
  import opened Wrappers

  datatype OpportunityStatus = Active | Inactive | Archived
  datatype SubmissionStatus = Pending | Approved | Rejected
  datatype Role = Editor | Manager | Admin

  /** An `opportunities` document. */
  datatype Opportunity = Opportunity(
    title: string,
    description: string,
    descriptionFull: string,
    provider: string,
    logoUrl: string,
    categoryTags: seq<string>,
    applicableGroups: seq<string>,
    applyUrl: string,
    deadline: Option<int>,
    status: OpportunityStatus,
    regions: Option<seq<string>>,
    fundingTypes: Option<seq<string>>,
    eligibility: Option<string>,
    createdAt: int,
    updatedAt: int,
    verifiedAt: Option<int>,
    createdBy: string,
    archivedAt: Option<int>,
    archivedBy: Option<string>,
    sortOrder: Option<int>)

  /** A `submissions` document. */
  datatype Submission = Submission(
    opportunityName: string,
    opportunityType: string,
    description: string,
    link: string,
    userName: Option<string>,
    userTwitter: Option<string>,
    status: SubmissionStatus,
    createdAt: int,
    reviewedAt: Option<int>)

  /**
   * An `admins` document as the code may write it. The schema requires a
   * role, but the registry's insert supplies none, so the role is optional
   * here and `AdminConforms` says whether the schema would accept the record.
   */
  datatype AdminRecord = AdminRecord(
    email: string,
    name: string,
    role: Option<Role>,
    createdAt: int,
    isActive: bool,
    lastLogin: Option<int>)

  /** An `auditLog` document; `changes` is an opaque payload. No operation writes one. */
  datatype AuditEntry = AuditEntry(
    adminId: string,
    adminEmail: string,
    action: string,
    resourceType: string,
    resourceId: string,
    changes: string,
    timestamp: int)

  /** The `admins` schema demands a role. */
  predicate AdminConforms(a: AdminRecord) {
    a.role.Some?
  }

  function OpportunityStatusName(s: OpportunityStatus): string {
    match s
    case Active => "active"
    case Inactive => "inactive"
    case Archived => "archived"
  }

  /** The `v.union(v.literal("active"), ...)` validator: accepts exactly the three literals. */
  function ParseOpportunityStatus(t: string): (r: Option<OpportunityStatus>)
    ensures r.Some? <==> t == "active" || t == "inactive" || t == "archived"
    ensures r.Some? ==> OpportunityStatusName(r.value) == t
  {
    if t == "active" then Some(Active)
    else if t == "inactive" then Some(Inactive)
    else if t == "archived" then Some(Archived)
    else None
  }

  lemma OpportunityStatusRoundTrip(s: OpportunityStatus)
    ensures ParseOpportunityStatus(OpportunityStatusName(s)) == Some(s)
  {
  }

  function SubmissionStatusName(s: SubmissionStatus): string {
    match s
    case Pending => "pending"
    case Approved => "approved"
    case Rejected => "rejected"
  }

  /** The submission status validator: accepts exactly `pending`, `approved` and `rejected`. */
  function ParseSubmissionStatus(t: string): (r: Option<SubmissionStatus>)
    ensures r.Some? <==> t == "pending" || t == "approved" || t == "rejected"
    ensures r.Some? ==> SubmissionStatusName(r.value) == t
  {
    if t == "pending" then Some(Pending)
    else if t == "approved" then Some(Approved)
    else if t == "rejected" then Some(Rejected)
    else None
  }

  lemma SubmissionStatusRoundTrip(s: SubmissionStatus)
    ensures ParseSubmissionStatus(SubmissionStatusName(s)) == Some(s)
  {
  }

  function RoleName(r: Role): string {
    match r
    case Editor => "editor"
    case Manager => "manager"
    case Admin => "admin"
  }

  /** The role validator: accepts exactly `editor`, `manager` and `admin`. */
  function ParseRole(t: string): (r: Option<Role>)
    ensures r.Some? <==> t == "editor" || t == "manager" || t == "admin"
    ensures r.Some? ==> RoleName(r.value) == t
  {
    if t == "editor" then Some(Editor)
    else if t == "manager" then Some(Manager)
    else if t == "admin" then Some(Admin)
    else None
  }

  lemma RoleRoundTrip(r: Role)
    ensures ParseRole(RoleName(r)) == Some(r)
  {
  }
}
