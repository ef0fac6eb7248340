/**
 * A database table: documents by identifier plus the order in which they were
 * inserted (the order `query(...).collect()` returns them in). Identifiers come
 * from a counter, so a fresh one is never in use and never reused.
 */
module Tables {

  type Id = nat

  datatype Table<R> = Table(rows: map<Id, R>, order: seq<Id>, nextId: Id)

  /** The insertion order lists every stored identifier exactly once, all below the counter. */
  ghost predicate Valid<R>(t: Table<R>) {
    && (forall id :: id in t.rows <==> id in t.order)
    && (forall i, j :: 0 <= i < j < |t.order| ==> t.order[i] != t.order[j])
    && (forall i :: 0 <= i < |t.order| ==> t.order[i] < t.nextId)
  }

  function Empty<R>(): (t: Table<R>)
    ensures Valid(t) && |t.order| == 0
  {
    Table(map[], [], 0)
  }

  /** `ctx.db.insert`: stores `r` under a fresh identifier, appended to the insertion order. */
  function Insert<R>(t: Table<R>, r: R): (res: (Table<R>, Id))
    requires Valid(t)
    ensures Valid(res.0)
    ensures res.1 !in t.rows
    ensures res.0.rows == t.rows[res.1 := r]
    ensures res.0.order == t.order + [res.1]
  {
    (Table(t.rows[t.nextId := r], t.order + [t.nextId], t.nextId + 1), t.nextId)
  }

  /** `ctx.db.patch` on a stored document: replaces its value, order unchanged. */
  function Patch<R>(t: Table<R>, id: Id, r: R): (t': Table<R>)
    requires Valid(t) && id in t.rows
    ensures Valid(t')
    ensures t'.rows == t.rows[id := r] && t'.order == t.order
  {
    t.(rows := t.rows[id := r])
  }

  /** `ctx.db.query(...).collect()`: every document, in insertion order. */
  function Collect<R>(t: Table<R>): (docs: seq<R>)
    requires Valid(t)
    ensures |docs| == |t.order|
    ensures forall id :: id in t.rows ==> t.rows[id] in docs
    ensures forall i :: 0 <= i < |docs| ==> t.order[i] in t.rows && docs[i] == t.rows[t.order[i]]
  {
    var docs := seq(|t.order|, i requires 0 <= i < |t.order| => t.rows[t.order[i]]);
    assert forall id :: id in t.rows ==> t.rows[id] in docs by {
      forall id | id in t.rows
        ensures t.rows[id] in docs
      {
        var i :| 0 <= i < |t.order| && t.order[i] == id;
        assert docs[i] == t.rows[id];
      }
    }
    docs
  }
}
