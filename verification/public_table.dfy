/**
 * The public opportunities table: search-and-category filtering of the list
 * the query returned (`undefined` while loading), the sorted category index
 * and the result-count label.
 */
module PublicTable {
  import opened Wrappers
  import opened Strings
  import opened Schema
  import opened Sequences

  /** Case-insensitive substring match against title, description or provider. */
  predicate MatchesSearch(o: Opportunity, query: string) {
    var q := ToLower(query);
    Includes(ToLower(o.title), q) || Includes(ToLower(o.description), q) || Includes(ToLower(o.provider), q)
  }

  /**
   * `!selectedCategory || opp.categoryTags.includes(selectedCategory)`: no
   * category (or the falsy empty one) keeps everything; otherwise exact,
   * case-sensitive membership.
   */
  predicate MatchesCategory(o: Opportunity, selected: Option<string>) {
    selected.None? || selected.value == "" || selected.value in o.categoryTags
  }

  predicate Keep(o: Opportunity, query: string, selected: Option<string>) {
    MatchesSearch(o, query) && MatchesCategory(o, selected)
  }

  function FilterKept(opps: seq<Opportunity>, query: string, selected: Option<string>): (r: seq<Opportunity>)
    ensures IsSubsequence(r, opps)
    ensures forall x :: multiset(r)[x] == if Keep(x, query, selected) then multiset(opps)[x] else 0
  {
    if |opps| == 0 then []
    else
      assert opps == [opps[0]] + opps[1..];
      var rest := FilterKept(opps[1..], query, selected);
      if Keep(opps[0], query, selected) then [opps[0]] + rest
      else rest
  }

  /**
   * `filteredOpportunities`: empty while loading; otherwise the items kept by
   * the search and category tests, in their original order.
   */
  function FilteredOpportunities(opps: Option<seq<Opportunity>>, query: string, selected: Option<string>)
    : (r: seq<Opportunity>)
    ensures opps.None? ==> r == []
    ensures opps.Some? ==> IsSubsequence(r, opps.value)
    ensures opps.Some? ==> forall x :: x in r <==> x in opps.value && Keep(x, query, selected)
    ensures opps.Some? ==> forall x ::
      multiset(r)[x] == if Keep(x, query, selected) then multiset(opps.value)[x] else 0
  {
    match opps
    case None => []
    case Some(os) =>
      var r := FilterKept(os, query, selected);
      assert forall x :: x in r <==> x in os && Keep(x, query, selected) by {
        forall x
          ensures x in r <==> x in os && Keep(x, query, selected)
        {
          assert x in r <==> multiset(r)[x] > 0;
          assert x in os <==> multiset(os)[x] > 0;
        }
      }
      r
  }

  /** An empty query and no selected category keep every item. */
  lemma {:induction false} EmptyFilterKeepsAll(opps: seq<Opportunity>)
    ensures FilteredOpportunities(Some(opps), "", None) == opps
  {
    KeepAllWhenUnfiltered(opps);
  }

  lemma {:induction false} KeepAllWhenUnfiltered(opps: seq<Opportunity>)
    ensures FilterKept(opps, "", None) == opps
  {
    if |opps| > 0 {
      var o := opps[0];
      assert ToLower("") == "";
      IncludesEmpty(ToLower(o.title));
      assert Keep(o, "", None);
      KeepAllWhenUnfiltered(opps[1..]);
      assert opps == [o] + opps[1..];
    }
  }

  /**
   * Category matching is exact: a non-empty category that is not literally
   * one of the tags drops the item, even when a tag differs from it only in
   * case ("Grant" against "grant").
   */
  lemma CategoryIsCaseSensitive(o: Opportunity, query: string, c: string)
    requires c != "" && c !in o.categoryTags
    ensures !Keep(o, query, Some(c))
    ensures FilteredOpportunities(Some([o]), query, Some(c)) == []
  {
  }

  /** Strictly increasing in the default sort order: sorted and duplicate-free. */
  predicate StrictlyIncreasing(s: seq<string>) {
    forall i, j :: 0 <= i < j < |s| ==> LexLess(s[i], s[j])
  }

  /** Adds `x` to a strictly increasing sequence, where it belongs, unless present. */
  function InsertSorted(x: string, s: seq<string>): (r: seq<string>)
    requires StrictlyIncreasing(s)
    ensures StrictlyIncreasing(r)
    ensures forall y :: y in r <==> y == x || y in s
  {
    if |s| == 0 then [x]
    else if x == s[0] then s
    else if LexLess(x, s[0]) then
      forall j | 0 < j < |s|
        ensures LexLess(x, s[j])
      {
        LexLessTransitive(x, s[0], s[j]);
      }
      [x] + s
    else
      LexLessTotal(x, s[0]);
      var rest := InsertSorted(x, s[1..]);
      assert forall y :: y in rest ==> LexLess(s[0], y) by {
        forall y | y in rest
          ensures LexLess(s[0], y)
        {
          if y != x {
            var j :| 0 <= j < |s[1..]| && s[1..][j] == y;
            assert s[j + 1] == y;
          }
        }
      }
      ConsIncreasing(s[0], rest);
      [s[0]] + rest
  }

  lemma ConsIncreasing(h: string, tail: seq<string>)
    requires StrictlyIncreasing(tail)
    requires forall y :: y in tail ==> LexLess(h, y)
    ensures StrictlyIncreasing([h] + tail)
  {
    var s := [h] + tail;
    forall i, j | 0 <= i < j < |s|
      ensures LexLess(s[i], s[j])
    {
      assert s[j] == tail[j - 1];
      if i > 0 {
        assert s[i] == tail[i - 1];
      }
    }
  }

  /** The tags of `opps`, in order (`flatMap(opp => opp.categoryTags)`). */
  function AllTags(opps: seq<Opportunity>): (r: seq<string>)
    ensures forall t :: t in r <==> exists o :: o in opps && t in o.categoryTags
  {
    if |opps| == 0 then []
    else
      var rest := AllTags(opps[1..]);
      assert forall o :: o in opps <==> o == opps[0] || o in opps[1..] by {
        assert opps == [opps[0]] + opps[1..];
      }
      opps[0].categoryTags + rest
  }

  function SortedUnique(tags: seq<string>): (r: seq<string>)
    ensures StrictlyIncreasing(r)
    ensures forall t :: t in r <==> t in tags
  {
    if |tags| == 0 then []
    else
      assert forall t :: t in tags <==> t == tags[0] || t in tags[1..] by {
        assert tags == [tags[0]] + tags[1..];
      }
      InsertSorted(tags[0], SortedUnique(tags[1..]))
  }

  /**
   * `allCategories`: `Array.from(new Set(flatMap(categoryTags))).sort()`;
   * empty while loading.
   */
  function AllCategories(opps: Option<seq<Opportunity>>): (r: seq<string>)
    ensures StrictlyIncreasing(r)
    ensures opps.None? ==> r == []
    ensures opps.Some? ==> forall t :: t in r <==> exists o :: o in opps.value && t in o.categoryTags
  {
    match opps
    case None => []
    case Some(os) => SortedUnique(AllTags(os))
  }

  /**
   * A strictly increasing sequence is determined by its elements, so the
   * category index is THE sorted, duplicate-free listing of the tags.
   */
  lemma {:induction false} StrictlyIncreasingUnique(a: seq<string>, b: seq<string>)
    requires StrictlyIncreasing(a) && StrictlyIncreasing(b)
    requires forall t :: t in a <==> t in b
    ensures a == b
    decreases |a|
  {
    EmptyTogether(a, b);
    if |a| > 0 {
      if a[0] != b[0] {
        LexLessTotal(a[0], b[0]);
        if LexLess(a[0], b[0]) {
          MinimumBelow(b, a[0]);
        } else {
          MinimumBelow(a, b[0]);
        }
        assert false;
      }
      forall t
        ensures t in a[1..] <==> t in b[1..]
      {
        TailMembers(a, t);
        TailMembers(b, t);
      }
      StrictlyIncreasingUnique(a[1..], b[1..]);
      assert a == [a[0]] + a[1..] && b == [b[0]] + b[1..];
    }
  }

  /** Sequences with the same elements are empty together. */
  lemma EmptyTogether(a: seq<string>, b: seq<string>)
    requires forall t :: t in a <==> t in b
    ensures |a| > 0 <==> |b| > 0
  {
    if |a| > 0 {
      assert a[0] in a;
    }
    if |b| > 0 {
      assert b[0] in b;
    }
  }

  /** Nothing below the head of a strictly increasing sequence is in it. */
  lemma MinimumBelow(s: seq<string>, x: string)
    requires StrictlyIncreasing(s) && |s| > 0 && LexLess(x, s[0])
    ensures x !in s
  {
    if x in s {
      var j :| 0 <= j < |s| && s[j] == x;
      if j > 0 {
        LexLessAsymmetric(s[0], s[j]);
      } else {
        LexLessIrreflexive(x);
      }
    }
  }

  /** The tail of a strictly increasing sequence holds every element but the head. */
  lemma TailMembers(s: seq<string>, t: string)
    requires StrictlyIncreasing(s) && |s| > 0
    ensures t in s[1..] <==> t in s && t != s[0]
  {
    if t in s[1..] {
      var j :| 0 <= j < |s[1..]| && s[1..][j] == t;
      assert LexLess(s[0], s[j + 1]);
      if t == s[0] {
        LexLessIrreflexive(t);
      }
    }
    if t in s && t != s[0] {
      var j :| 0 <= j < |s| && s[j] == t;
      assert s[1..][j - 1] == t;
    }
  }

  /** The count line: the plural form only for more than one result, so zero reads "0 opportunity". */
  function CountLabel(n: nat): string {
    NatToString(n) + " " + (if n > 1 then "opportunities" else "opportunity")
  }

  /** The label names the number of results and uses the plural exactly when it exceeds one. */
  lemma CountLabelMeaning(n: nat)
    ensures var r := CountLabel(n);
      var digits := NatToString(n);
      r[..|digits|] == digits && DigitsValue(r[..|digits|]) == n
    ensures CountLabel(n)[|NatToString(n)| + 1..] == "opportunities" <==> n > 1
    ensures CountLabel(0) == "0 opportunity"
  {
    NatToStringRoundTrip(n);
    var digits := NatToString(n);
    assert CountLabel(n)[|digits| + 1..] == if n > 1 then "opportunities" else "opportunity";
    assert "opportunity" != "opportunities";
  }
}
