/**
 * The admin registry (`isAdmin`, `add`, `list`, `deactivate`): a soft-delete
 * state machine over the `admins` table keyed by email. `Date.now()` is the
 * parameter `now`.
 */
module Admins {
  import opened Wrappers
  import opened Schema
  import opened Tables

  type Registry = Table<AdminRecord>

  /** At most one record per email: what `add` is meant to keep. */
  ghost predicate UniqueEmails(t: Registry) {
    UniqueEmailRows(t.rows)
  }

  ghost predicate UniqueEmailRows(rows: map<Id, AdminRecord>) {
    forall a, b :: a in rows && b in rows && rows[a].email == rows[b].email ==> a == b
  }

  /** Changing records without changing any email keeps emails unique. */
  lemma SameEmailsStayUnique(rows: map<Id, AdminRecord>, rows': map<Id, AdminRecord>)
    requires UniqueEmailRows(rows)
    requires rows'.Keys == rows.Keys
    requires forall k :: k in rows ==> rows'[k].email == rows[k].email
    ensures UniqueEmailRows(rows')
  {
  }

  /** Adding a record under a fresh key with an unused email keeps emails unique. */
  lemma FreshEmailStaysUnique(rows: map<Id, AdminRecord>, id: Id, rec: AdminRecord)
    requires UniqueEmailRows(rows) && id !in rows
    requires forall k :: k in rows ==> rows[k].email != rec.email
    ensures UniqueEmailRows(rows[id := rec])
  {
  }

  /**
   * `id` is the first identifier of `ids` whose record has `email`: every
   * identifier before it has a record with another email.
   */
  ghost predicate IsFirstWithEmail(rows: map<Id, AdminRecord>, ids: seq<Id>, email: string, id: Id) {
    exists i :: 0 <= i < |ids| && ids[i] == id && id in rows && rows[id].email == email &&
      forall j :: 0 <= j < i ==> ids[j] in rows && rows[ids[j]].email != email
  }

  /** A first match in the tail stays the first match behind a non-matching head. */
  lemma FirstBehindHead(rows: map<Id, AdminRecord>, ids: seq<Id>, email: string, id: Id)
    requires |ids| > 0 && ids[0] in rows && rows[ids[0]].email != email
    requires IsFirstWithEmail(rows, ids[1..], email, id)
    ensures IsFirstWithEmail(rows, ids, email, id)
  {
    var i :| 0 <= i < |ids[1..]| && ids[1..][i] == id && id in rows && rows[id].email == email &&
      forall j :: 0 <= j < i ==> ids[1..][j] in rows && rows[ids[1..][j]].email != email;
    assert ids[i + 1] == id;
    forall j | 0 <= j < i + 1
      ensures ids[j] in rows && rows[ids[j]].email != email
    {
      if j > 0 {
        assert ids[j] == ids[1..][j - 1];
      }
    }
  }

  /** There is at most one first match. */
  lemma FirstWithEmailUnique(rows: map<Id, AdminRecord>, ids: seq<Id>, email: string, a: Id, b: Id)
    requires IsFirstWithEmail(rows, ids, email, a) && IsFirstWithEmail(rows, ids, email, b)
    ensures a == b
  {
    var i :| 0 <= i < |ids| && ids[i] == a && a in rows && rows[a].email == email &&
      forall j :: 0 <= j < i ==> ids[j] in rows && rows[ids[j]].email != email;
    var k :| 0 <= k < |ids| && ids[k] == b && b in rows && rows[b].email == email &&
      forall j :: 0 <= j < k ==> ids[j] in rows && rows[ids[j]].email != email;
    assert i == k;
  }

  /** The first identifier of `ids` whose record has `email`. */
  function FirstIn(rows: map<Id, AdminRecord>, ids: seq<Id>, email: string): (r: Option<Id>)
    requires forall i :: 0 <= i < |ids| ==> ids[i] in rows
    ensures r.Some? ==> IsFirstWithEmail(rows, ids, email, r.value)
    ensures r.None? ==> forall i :: 0 <= i < |ids| ==> rows[ids[i]].email != email
  {
    if |ids| == 0 then None
    else if rows[ids[0]].email == email then Some(ids[0])
    else
      var r := FirstIn(rows, ids[1..], email);
      if r.Some? then FirstBehindHead(rows, ids, email, r.value); r
      else r
  }

  /**
   * `withIndex("by_email", q => q.eq("email", e)).first()`: the earliest
   * inserted record with that email, if any.
   */
  function FindByEmail(t: Registry, email: string): (r: Option<Id>)
    requires Valid(t)
    ensures r.Some? ==> r.value in t.rows && t.rows[r.value].email == email
    ensures r.Some? ==> IsFirstWithEmail(t.rows, t.order, email, r.value)
    ensures r.None? <==> forall id :: id in t.rows ==> t.rows[id].email != email
  {
    var r := FirstIn(t.rows, t.order, email);
    assert r.None? ==> forall id :: id in t.rows ==> t.rows[id].email != email by {
      if r.None? {
        forall id | id in t.rows
          ensures t.rows[id].email != email
        {
          var i :| 0 <= i < |t.order| && t.order[i] == id;
        }
      }
    }
    r
  }

  /** With unique emails the record found is the only one with that email. */
  lemma FindByEmailUnique(t: Registry, email: string, id: Id)
    requires Valid(t) && UniqueEmails(t)
    requires id in t.rows && t.rows[id].email == email
    ensures FindByEmail(t, email) == Some(id)
  {
  }

  /**
   * `isAdmin`: the earliest inserted record with that email exists and is
   * active; a later record with the same email is never consulted.
   */
  function IsAdmin(t: Registry, email: string): (r: bool)
    requires Valid(t)
    ensures r <==> exists id :: id in t.rows && IsFirstWithEmail(t.rows, t.order, email, id) && t.rows[id].isActive
    ensures r ==> exists id :: id in t.rows && t.rows[id].email == email && t.rows[id].isActive
    ensures UniqueEmails(t) ==>
      (r <==> exists id :: id in t.rows && t.rows[id].email == email && t.rows[id].isActive)
  {
    var found := FindByEmail(t, email);
    var r := found.Some? && t.rows[found.value].isActive;
    assert (exists id :: id in t.rows && IsFirstWithEmail(t.rows, t.order, email, id) && t.rows[id].isActive) ==> r by {
      if id :| id in t.rows && IsFirstWithEmail(t.rows, t.order, email, id) && t.rows[id].isActive {
        assert found.Some?;
        FirstWithEmailUnique(t.rows, t.order, email, id, found.value);
      }
    }
    r
  }

  /** The record `add` inserts for a new email: active, created now, without a role. */
  function NewAdmin(email: string, name: string, now: int): AdminRecord {
    AdminRecord(email, name, None, now, true, None)
  }

  /**
   * Convex's error for a document the schema rejects; the wording is the
   * runtime's, not part of this model.
   */
  const SchemaViolation: string := "Object is missing the required field `role`"

  /**
   * `add`: reactivates the record of an existing email (leaving everything
   * else, the name included, as it was) and returns its identifier. For a new
   * email the insert omits the role the `admins` schema requires, so schema
   * validation rejects it: the mutation throws and nothing is stored.
   */
  function Add(t: Registry, email: string, name: string, now: int): (res: Result<(Registry, Id), string>)
    requires Valid(t)
    ensures res.Success? <==> FindByEmail(t, email).Some?
    ensures res.Failure? ==> res.error == SchemaViolation && !AdminConforms(NewAdmin(email, name, now))
    ensures res.Success? ==>
      var (t', id) := res.value;
      && Valid(t')
      && id == FindByEmail(t, email).value
      && t'.order == t.order
      && t'.rows == t.rows[id := t.rows[id].(isActive := true)]
  {
    match FindByEmail(t, email)
    case Some(id) => Success((Patch(t, id, t.rows[id].(isActive := true)), id))
    case None => Failure(SchemaViolation)
  }

  /** A successful `add` keeps emails unique and leaves the email an admin. */
  lemma AddKeepsEmailsUnique(t: Registry, email: string, name: string, now: int)
    requires Valid(t) && UniqueEmails(t)
    ensures Add(t, email, name, now).Success? ==>
      UniqueEmails(Add(t, email, name, now).value.0) && IsAdmin(Add(t, email, name, now).value.0, email)
  {
    if Add(t, email, name, now).Success? {
      var (t', id) := Add(t, email, name, now).value;
      SameEmailsStayUnique(t.rows, t'.rows);
      FindByEmailUnique(t', email, id);
    }
  }

  /** Re-adding a known email changes nothing but its active flag. */
  lemma AddExistingKeepsName(t: Registry, email: string, name: string, now: int)
    requires Valid(t) && FindByEmail(t, email).Some?
    ensures var (t', id) := Add(t, email, name, now).value;
      t'.rows[id].name == t.rows[id].name && t'.rows[id].createdAt == t.rows[id].createdAt
      && |t'.order| == |t.order|
  {
  }

  /**
   * As written, `add` never registers anyone new: for an unknown email it
   * fails, the registry is left as it was, and the email is still no admin.
   */
  lemma AddNeverRegistersNew(t: Registry, email: string, name: string, now: int)
    requires Valid(t) && FindByEmail(t, email).None?
    ensures Add(t, email, name, now) == Failure(SchemaViolation)
    ensures !IsAdmin(t, email)
  {
  }

  /**
   * The evidently intended `add`: the same upsert, with the new record
   * carrying a role so that the schema accepts it.
   */
  function AddWithRole(t: Registry, email: string, name: string, role: Role, now: int): (res: (Registry, Id))
    requires Valid(t)
    ensures Valid(res.0)
    ensures var (t', id) := res;
      id in t'.rows && t'.rows[id].email == email && t'.rows[id].isActive
    ensures var (t', id) := res;
      FindByEmail(t, email).Some? ==>
        && Success(res) == Add(t, email, name, now)
    ensures var (t', id) := res;
      FindByEmail(t, email).None? ==>
        && id !in t.rows
        && t'.order == t.order + [id]
        && t'.rows == t.rows[id := NewAdmin(email, name, now).(role := Some(role))]
        && AdminConforms(t'.rows[id])
  {
    match FindByEmail(t, email)
    case Some(id) => (Patch(t, id, t.rows[id].(isActive := true)), id)
    case None => Insert(t, NewAdmin(email, name, now).(role := Some(role)))
  }

  /** The corrected `add` keeps emails unique and always leaves the email an admin. */
  lemma AddWithRoleKeepsEmailsUnique(t: Registry, email: string, name: string, role: Role, now: int)
    requires Valid(t) && UniqueEmails(t)
    ensures UniqueEmails(AddWithRole(t, email, name, role, now).0)
    ensures IsAdmin(AddWithRole(t, email, name, role, now).0, email)
  {
    var (t', id) := AddWithRole(t, email, name, role, now);
    AddWithRoleRowsUnique(t, email, name, role, now);
    FindByEmailUnique(t', email, id);
  }

  lemma AddWithRoleRowsUnique(t: Registry, email: string, name: string, role: Role, now: int)
    requires Valid(t) && UniqueEmails(t)
    ensures UniqueEmailRows(AddWithRole(t, email, name, role, now).0.rows)
  {
    if FindByEmail(t, email).Some? {
      var t' := AddWithRole(t, email, name, role, now).0;
      SameEmailsStayUnique(t.rows, t'.rows);
    } else {
      AddWithRoleNewRowsUnique(t, email, name, role, now);
    }
  }

  lemma AddWithRoleNewRowsUnique(t: Registry, email: string, name: string, role: Role, now: int)
    requires Valid(t) && UniqueEmails(t) && FindByEmail(t, email).None?
    ensures UniqueEmailRows(AddWithRole(t, email, name, role, now).0.rows)
  {
    var id := AddWithRole(t, email, name, role, now).1;
    FreshEmailStaysUnique(t.rows, id, NewAdmin(email, name, now).(role := Some(role)));
  }

  /** Every record conforming to the schema stays so under the corrected `add`. */
  lemma AddWithRoleConforms(t: Registry, email: string, name: string, role: Role, now: int)
    requires Valid(t)
    requires forall id :: id in t.rows ==> AdminConforms(t.rows[id])
    ensures var t' := AddWithRole(t, email, name, role, now).0;
      forall id :: id in t'.rows ==> AdminConforms(t'.rows[id])
  {
  }

  /** `list`: every record, unfiltered, in insertion order. */
  function List(t: Registry): (r: seq<AdminRecord>)
    requires Valid(t)
    ensures |r| == |t.order|
    ensures forall i :: 0 <= i < |r| ==> r[i] == t.rows[t.order[i]]
    ensures forall id :: id in t.rows ==> t.rows[id] in r
    ensures forall x :: x in r ==> exists id :: id in t.rows && t.rows[id] == x
  {
    Collect(t)
  }

  /**
   * `deactivate`: fails with "Admin not found" for an unknown identifier;
   * otherwise clears only the active flag and returns the identifier.
   */
  function Deactivate(t: Registry, id: Id): (r: Result<(Registry, Id), string>)
    requires Valid(t)
    ensures id !in t.rows <==> r == Failure("Admin not found")
    ensures r.Success? ==>
      && Valid(r.value.0)
      && r.value.1 == id
      && r.value.0.order == t.order
      && r.value.0.rows == t.rows[id := t.rows[id].(isActive := false)]
  {
    if id !in t.rows then Failure("Admin not found")
    else Success((Patch(t, id, t.rows[id].(isActive := false)), id))
  }

  /** Deactivating twice is the same as deactivating once. */
  lemma DeactivateIdempotent(t: Registry, id: Id)
    requires Valid(t) && id in t.rows
    ensures var t' := Deactivate(t, id).value.0;
      Deactivate(t', id) == Success((t', id))
  {
    var t' := Deactivate(t, id).value.0;
    assert t'.rows[id := t'.rows[id].(isActive := false)] == t'.rows;
  }

  /** After deactivation the email is no longer an admin (emails being unique). */
  lemma DeactivateRevokes(t: Registry, id: Id)
    requires Valid(t) && UniqueEmails(t) && id in t.rows
    ensures var t' := Deactivate(t, id).value.0;
      UniqueEmails(t') && !IsAdmin(t', t.rows[id].email)
  {
    var t' := Deactivate(t, id).value.0;
    SameEmailsStayUnique(t.rows, t'.rows);
    FindByEmailUnique(t', t.rows[id].email, id);
  }

  /** Deactivation is soft: adding the email again reactivates the same record. */
  lemma ReAddReactivates(t: Registry, id: Id, name: string, now: int)
    requires Valid(t) && UniqueEmails(t) && id in t.rows
    ensures var t' := Deactivate(t, id).value.0;
      Add(t', t.rows[id].email, name, now) == Success((t.(rows := t.rows[id := t.rows[id].(isActive := true)]), id))
  {
    var t' := Deactivate(t, id).value.0;
    DeactivatedStillFound(t, id);
    assert t'.rows[id := t'.rows[id].(isActive := true)] == t.rows[id := t.rows[id].(isActive := true)];
  }

  /** After deactivation the lookup by the record's email still finds that record. */
  lemma DeactivatedStillFound(t: Registry, id: Id)
    requires Valid(t) && UniqueEmails(t) && id in t.rows
    ensures var t' := Deactivate(t, id).value.0;
      Valid(t') && FindByEmail(t', t.rows[id].email) == Some(id)
  {
    var t' := Deactivate(t, id).value.0;
    SameEmailsStayUnique(t.rows, t'.rows);
    FindByEmailUnique(t', t.rows[id].email, id);
  }
}
