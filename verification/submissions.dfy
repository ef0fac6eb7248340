/**
 * The submission queue (`create`, `list`, `updateStatus`) over the
 * `submissions` table. `Date.now()` is the parameter `now`.
 */
module Submissions {
  import opened Wrappers
  import opened Schema
  import opened Tables
  import opened Sequences

  type Queue = Table<Submission>

  /** The arguments of `create`. */
  datatype SubmissionInput = SubmissionInput(
    opportunityName: string,
    opportunityType: string,
    description: string,
    link: string,
    userName: Option<string>,
    userTwitter: Option<string>)

  datatype QueueError = NotFound | InvalidStatus(status: string)

  /** `create`: one new document, the arguments copied, pending, stamped `now`, not reviewed. */
  function Create(t: Queue, input: SubmissionInput, now: int): (res: (Queue, Id))
    requires Valid(t)
    ensures var (t', id) := res;
      && Valid(t')
      && id !in t.rows
      && t'.order == t.order + [id]
      && t'.rows == t.rows[id := t'.rows[id]]
    ensures var s := res.0.rows[res.1];
      && s.opportunityName == input.opportunityName
      && s.opportunityType == input.opportunityType
      && s.description == input.description
      && s.link == input.link
      && s.userName == input.userName
      && s.userTwitter == input.userTwitter
      && s.status == Pending
      && s.createdAt == now
      && s.reviewedAt.None?
  {
    Insert(t, Submission(input.opportunityName, input.opportunityType, input.description, input.link,
                         input.userName, input.userTwitter, Pending, now, None))
  }

  /** The `list` filter: an absent or empty status (falsy) keeps everything. */
  predicate Selected(s: Submission, status: Option<string>) {
    status.None? || status.value == "" || SubmissionStatusName(s.status) == status.value
  }

  /**
   * `collect().filter(...)`: the selected documents in their original order,
   * each as many times as it occurs.
   */
  function FilterStatus(docs: seq<Submission>, status: Option<string>): (r: seq<Submission>)
    ensures IsSubsequence(r, docs)
    ensures forall x :: multiset(r)[x] == if Selected(x, status) then multiset(docs)[x] else 0
    ensures forall x :: x in r <==> x in docs && Selected(x, status)
    ensures |r| <= |docs|
  {
    if |docs| == 0 then []
    else
      assert docs == [docs[0]] + docs[1..];
      var rest := FilterStatus(docs[1..], status);
      if Selected(docs[0], status) then [docs[0]] + rest
      else rest
  }

  /** Most recent first: `createdAt` never increases along the sequence. */
  predicate NewestFirst(docs: seq<Submission>) {
    forall i, j :: 0 <= i < j < |docs| ==> docs[i].createdAt >= docs[j].createdAt
  }

  /**
   * Inserts `x` before the first element not newer than it; `x` comes first
   * among equal timestamps, which keeps the sort stable.
   */
  function InsertNewest(x: Submission, docs: seq<Submission>): (r: seq<Submission>)
    requires NewestFirst(docs)
    ensures NewestFirst(r)
    ensures multiset(r) == multiset(docs) + multiset{x}
    ensures forall y :: y in r ==> y == x || y in docs
  {
    if |docs| == 0 || docs[0].createdAt <= x.createdAt then
      ConsNewestFirst(x, docs);
      [x] + docs
    else
      var rest := InsertNewest(x, docs[1..]);
      assert multiset(docs) == multiset{docs[0]} + multiset(docs[1..]) by {
        assert docs == [docs[0]] + docs[1..];
      }
      HeadIsNewest(docs);
      ConsNewestFirst(docs[0], rest);
      [docs[0]] + rest
  }

  /** The head of a newest-first sequence is at least as recent as everything after it. */
  lemma HeadIsNewest(docs: seq<Submission>)
    requires NewestFirst(docs) && |docs| > 0
    ensures forall y :: y in docs[1..] ==> y.createdAt <= docs[0].createdAt
  {
    forall y | y in docs[1..]
      ensures y.createdAt <= docs[0].createdAt
    {
      var j :| 0 <= j < |docs[1..]| && docs[1..][j] == y;
      assert docs[j + 1] == y;
    }
  }

  /** A head no older than any element of a sorted tail keeps the sequence sorted. */
  lemma ConsNewestFirst(h: Submission, tail: seq<Submission>)
    requires NewestFirst(tail)
    requires forall y :: y in tail ==> y.createdAt <= h.createdAt
    ensures NewestFirst([h] + tail)
  {
    var s := [h] + tail;
    forall i, j | 0 <= i < j < |s|
      ensures s[i].createdAt >= s[j].createdAt
    {
      assert s[j] == tail[j - 1];
      if i > 0 {
        assert s[i] == tail[i - 1];
      }
    }
  }

  /** `sort((a, b) => b.createdAt - a.createdAt)`, stable insertion sort. */
  function SortNewestFirst(docs: seq<Submission>): (r: seq<Submission>)
    ensures NewestFirst(r)
    ensures multiset(r) == multiset(docs)
  {
    if |docs| == 0 then []
    else
      assert docs == [docs[0]] + docs[1..];
      InsertNewest(docs[0], SortNewestFirst(docs[1..]))
  }

  /**
   * `list`: the documents selected by `status`, most recent first. The
   * result is a permutation of the selected documents.
   */
  function List(t: Queue, status: Option<string>): (r: seq<Submission>)
    requires Valid(t)
    ensures NewestFirst(r)
    ensures multiset(r) == multiset(FilterStatus(Collect(t), status))
    ensures forall x :: x in r <==> (exists id :: id in t.rows && t.rows[id] == x) && Selected(x, status)
  {
    var selected := FilterStatus(Collect(t), status);
    var r := SortNewestFirst(selected);
    SameMembers(r, selected);
    r
  }

  /** Sequences that are permutations of each other have the same members. */
  lemma SameMembers(a: seq<Submission>, b: seq<Submission>)
    requires multiset(a) == multiset(b)
    ensures forall x :: x in a <==> x in b
  {
    forall x
      ensures x in a <==> x in b
    {
      assert x in a <==> x in multiset(a);
      assert x in b <==> x in multiset(b);
    }
  }

  /** A named status keeps exactly the documents with that status. */
  lemma ListByStatus(t: Queue, s: SubmissionStatus)
    requires Valid(t)
    ensures forall x :: x in List(t, Some(SubmissionStatusName(s))) <==>
      (exists id :: id in t.rows && t.rows[id] == x) && x.status == s
  {
    forall x: Submission
      ensures SubmissionStatusName(x.status) == SubmissionStatusName(s) <==> x.status == s
    {
      SubmissionStatusRoundTrip(x.status);
      SubmissionStatusRoundTrip(s);
    }
  }

  /** No status, or the empty one, lists every document: a reordering of the whole table. */
  lemma ListAll(t: Queue)
    requires Valid(t)
    ensures multiset(List(t, None)) == multiset(Collect(t))
    ensures multiset(List(t, Some(""))) == multiset(Collect(t))
  {
    FilterKeepsAll(Collect(t), None);
    FilterKeepsAll(Collect(t), Some(""));
  }

  lemma {:induction false} FilterKeepsAll(docs: seq<Submission>, status: Option<string>)
    requires status.None? || status.value == ""
    ensures FilterStatus(docs, status) == docs
  {
    if |docs| > 0 {
      FilterKeepsAll(docs[1..], status);
      assert Selected(docs[0], status);
      assert FilterStatus(docs, status) == [docs[0]] + FilterStatus(docs[1..], status);
      assert docs == [docs[0]] + docs[1..];
    }
  }

  /**
   * `updateStatus`: sets the status and stamps `reviewedAt := now`, leaving
   * every other field alone, and returns the identifier. An unknown
   * identifier, or a status outside the schema's three literals, is an error.
   */
  function UpdateStatus(t: Queue, id: Id, status: string, now: int): (r: Result<(Queue, Id), QueueError>)
    requires Valid(t)
    ensures id !in t.rows ==> r == Failure(NotFound)
    ensures id in t.rows && ParseSubmissionStatus(status).None? ==> r == Failure(InvalidStatus(status))
    ensures r.Success? ==>
      var (t', id') := r.value;
      && Valid(t') && id' == id && t'.order == t.order
      && SubmissionStatusName(t'.rows[id].status) == status
      && t'.rows == t.rows[id := t.rows[id].(status := t'.rows[id].status, reviewedAt := Some(now))]
    ensures id in t.rows && ParseSubmissionStatus(status).Some? ==> r.Success?
  {
    if id !in t.rows then Failure(NotFound)
    else
      match ParseSubmissionStatus(status)
      case None => Failure(InvalidStatus(status))
      case Some(s) => Success((Patch(t, id, t.rows[id].(status := s, reviewedAt := Some(now))), id))
  }

  /** A reviewed submission stays reviewed: a later update never clears `reviewedAt`. */
  lemma ReviewedStaysReviewed(t: Queue, id: Id, status: string, now: int)
    requires Valid(t)
    requires UpdateStatus(t, id, status, now).Success?
    ensures forall k :: k in t.rows && t.rows[k].reviewedAt.Some? ==>
      UpdateStatus(t, id, status, now).value.0.rows[k].reviewedAt.Some?
  {
  }
}
