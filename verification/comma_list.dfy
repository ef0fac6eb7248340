/**
 * The comma-separated list encoding shared by the three admin opportunity
 * forms: a list field is shown as `items.join(", ")` (or `""` when the list is
 * missing) and read back as `text.split(",").map(t => t.trim())`.
 */
module CommaList {
  import opened Wrappers

  /** The ECMAScript WhiteSpace and LineTerminator code points: what `trim` removes. */
  predicate IsJsSpace(c: char) {
    var n := c as int;
    n == 0x09 || n == 0x0B || n == 0x0C || n == 0x20 || n == 0xA0 || n == 0xFEFF
    || n == 0x1680 || (0x2000 <= n <= 0x200A) || n == 0x202F || n == 0x205F || n == 0x3000
    || n == 0x0A || n == 0x0D || n == 0x2028 || n == 0x2029
  }

  /** Neither end of `t` is white space: `trim` would leave it as it is. */
  predicate IsTrimmed(t: string) {
    |t| == 0 || (!IsJsSpace(t[0]) && !IsJsSpace(t[|t| - 1]))
  }

  /** The end of the run of white space in `s` that starts at `i`. */
  function SpaceRunEnd(s: string, i: nat): (j: nat)
    requires i <= |s|
    ensures i <= j <= |s|
    ensures forall k :: i <= k < j ==> IsJsSpace(s[k])
    ensures j < |s| ==> !IsJsSpace(s[j])
    decreases |s| - i
  {
    if i < |s| && IsJsSpace(s[i]) then SpaceRunEnd(s, i + 1) else i
  }

  /** The start of the run of white space that ends at `j`, not reaching below `lo`. */
  function SpaceRunStart(s: string, lo: nat, j: nat): (i: nat)
    requires lo <= j <= |s|
    ensures lo <= i <= j
    ensures forall k :: i <= k < j ==> IsJsSpace(s[k])
    ensures i > lo ==> !IsJsSpace(s[i - 1])
    decreases j
  {
    if j > lo && IsJsSpace(s[j - 1]) then SpaceRunStart(s, lo, j - 1) else j
  }

  /** `trimStart`: the longest suffix of `s` that does not begin with white space. */
  function TrimStart(s: string): (r: string)
    ensures |r| <= |s| && r == s[|s| - |r|..]
    ensures forall k :: 0 <= k < |s| - |r| ==> IsJsSpace(s[k])
    ensures |r| > 0 ==> !IsJsSpace(r[0])
  {
    s[SpaceRunEnd(s, 0)..]
  }

  /** `trimEnd`: the longest prefix of `s` that does not end with white space. */
  function TrimEnd(s: string): (r: string)
    ensures |r| <= |s| && r == s[..|r|]
    ensures forall k :: |r| <= k < |s| ==> IsJsSpace(s[k])
    ensures |r| > 0 ==> !IsJsSpace(r[|r| - 1])
  {
    s[..SpaceRunStart(s, 0, |s|)]
  }

  /**
   * `String.prototype.trim`: the slice of `s` left after removing the white
   * space at both ends. It starts where `trimStart` starts, and only white
   * space lies on either side of it.
   */
  function Trim(s: string): (r: string)
    ensures IsTrimmed(r)
    ensures var i := |s| - |TrimStart(s)|;
      i + |r| <= |s| && r == s[i..i + |r|] &&
      (forall k :: 0 <= k < i ==> IsJsSpace(s[k])) &&
      (forall k :: i + |r| <= k < |s| ==> IsJsSpace(s[k]))
  {
    var i := SpaceRunEnd(s, 0);
    s[i..SpaceRunStart(s, i, |s|)]
  }

  /** Trimming leaves an already trimmed string alone. */
  lemma TrimOfTrimmed(t: string)
    requires IsTrimmed(t)
    ensures Trim(t) == t
  {
  }

  /** A single leading space, as `join(", ")` puts before every later item, is trimmed away. */
  lemma TrimLeadingSpace(t: string)
    requires IsTrimmed(t)
    ensures Trim(" " + t) == t
  {
    assert SpaceRunEnd(" " + t, 1) == 1;
  }

  /** Number of occurrences of `c` in `s`. */
  function CountChar(s: string, c: char): nat {
    if |s| == 0 then 0 else (if s[0] == c then 1 else 0) + CountChar(s[1..], c)
  }

  /**
   * `s.split(sep)` for a one-character separator: the pieces between
   * separators, empty pieces included; `""` splits into `[""]`.
   */
  function Split(s: string, sep: char): (r: seq<string>)
    ensures |r| == CountChar(s, sep) + 1
    ensures forall i :: 0 <= i < |r| ==> sep !in r[i]
  {
    if |s| == 0 then [""]
    else if s[0] == sep then [""] + Split(s[1..], sep)
    else
      var rest := Split(s[1..], sep);
      [[s[0]] + rest[0]] + rest[1..]
  }

  /** `items.join(sep)`. */
  function Join(items: seq<string>, sep: string): string {
    if |items| == 0 then ""
    else if |items| == 1 then items[0]
    else items[0] + sep + Join(items[1..], sep)
  }

  /** Splitting loses nothing: joining the pieces with the separator rebuilds the text. */
  lemma {:induction false} JoinSplit(s: string, sep: char)
    ensures Join(Split(s, sep), [sep]) == s
  {
    if |s| > 0 {
      var rest := Split(s[1..], sep);
      JoinSplit(s[1..], sep);
      if s[0] == sep {
        assert s == [sep] + s[1..];
      } else {
        var r := Split(s, sep);
        assert r == [[s[0]] + rest[0]] + rest[1..];
        if |rest| == 1 {
          assert s == [s[0]] + s[1..];
        } else {
          assert rest == [rest[0]] + rest[1..];
          assert r[1..] == rest[1..];
          assert Join(rest, [sep]) == rest[0] + [sep] + Join(rest[1..], [sep]);
          assert Join(r, [sep]) == ([s[0]] + rest[0]) + [sep] + Join(rest[1..], [sep]);
          assert s == [s[0]] + s[1..];
        }
      }
    }
  }

  /** The save-side parse: `text.split(",").map(t => t.trim())`, with no filtering. */
  function SplitTrim(text: string): (r: seq<string>)
    ensures |r| == CountChar(text, ',') + 1
    ensures forall i :: 0 <= i < |r| ==> IsTrimmed(r[i]) && ',' !in r[i]
    ensures var parts := Split(text, ',');
      forall i :: 0 <= i < |r| ==> r[i] == Trim(parts[i])
  {
    var parts := Split(text, ',');
    seq(|parts|, i requires 0 <= i < |parts| => Trim(parts[i]))
  }

  /** JavaScript's `a || b` on strings: `b` when `a` is the (falsy) empty string. */
  function OrElse(a: string, b: string): string {
    if a == "" then b else a
  }

  /** The form text shown for a list field: `list?.join(", ") || ""`. */
  function Display(list: Option<seq<string>>): (r: string)
    ensures list.None? ==> r == ""
    ensures list.Some? && |list.value| == 0 ==> r == ""
    ensures list.Some? && |list.value| == 1 ==> r == list.value[0]
  {
    match list
    case None => ""
    case Some(items) => OrElse(Join(items, ", "), "")
  }

  /** The form text for a list is exactly the items joined with `", "`. */
  lemma DisplayIsJoin(items: seq<string>)
    ensures Display(Some(items)) == Join(items, ", ")
  {
  }

  /** The form text for a list that may be missing. */
  lemma DisplayShows(list: Option<seq<string>>)
    ensures Display(list) == if list.Some? then Join(list.value, ", ") else ""
  {
  }

  /** Splitting a string without the separator yields that string alone. */
  lemma {:induction false} SplitNoSeparator(s: string, sep: char)
    requires sep !in s
    ensures Split(s, sep) == [s]
  {
    if |s| > 0 {
      SplitNoSeparator(s[1..], sep);
      assert s == [s[0]] + s[1..];
    }
  }

  /** A separator-free head splits off as one piece. */
  lemma {:induction false} SplitAfterHead(a: string, sep: char, b: string)
    requires sep !in a
    ensures Split(a + [sep] + b, sep) == [a] + Split(b, sep)
  {
    if |a| == 0 {
      assert a + [sep] + b == [sep] + b;
      assert ([sep] + b)[1..] == b;
    } else {
      var s := a + [sep] + b;
      assert s[0] == a[0] && s[1..] == a[1..] + [sep] + b;
      SplitAfterHead(a[1..], sep, b);
      assert [a[0]] + a[1..] == a;
    }
  }

  /** The pieces of `p + Join(items, ", ")`: the first carries `p`, every later one a leading space. */
  lemma {:induction false} SplitJoined(p: string, items: seq<string>)
    requires |items| > 0 && ',' !in p
    requires forall i :: 0 <= i < |items| ==> ',' !in items[i]
    ensures Split(p + Join(items, ", "), ',') ==
      [p + items[0]] + seq(|items| - 1, i requires 0 <= i < |items| - 1 => " " + items[i + 1])
    decreases |items|
  {
    if |items| == 1 {
      SplitNoSeparator(p + items[0], ',');
    } else {
      var tail := items[1..];
      var head := p + items[0];
      var rest := " " + Join(tail, ", ");
      assert Join(items, ", ") == items[0] + ", " + Join(tail, ", ");
      assert p + Join(items, ", ") == head + [','] + rest by {
        assert ", " == [','] + " ";
      }
      assert ',' !in head by {
        assert forall c :: c in head ==> c in p || c in items[0];
      }
      SplitAfterHead(head, ',', rest);
      SplitJoined(" ", tail);
      var later := seq(|tail| - 1, i requires 0 <= i < |tail| - 1 => " " + tail[i + 1]);
      var all := seq(|items| - 1, i requires 0 <= i < |items| - 1 => " " + items[i + 1]);
      assert all == [" " + tail[0]] + later;
    }
  }

  /** Items that are comma-free and trimmed: the lists the encoding can carry. */
  predicate Representable(items: seq<string>) {
    forall i :: 0 <= i < |items| ==> ',' !in items[i] && IsTrimmed(items[i])
  }

  /** A non-empty representable list comes back from open-then-save unchanged. */
  lemma {:induction false} RoundTripPreserves(items: seq<string>)
    requires |items| > 0 && Representable(items)
    ensures SplitTrim(Join(items, ", ")) == items
  {
    JoinedPieces(items);
    var parts := Split(Join(items, ", "), ',');
    var r := SplitTrim(Join(items, ", "));
    forall i | 0 <= i < |items|
      ensures r[i] == items[i]
    {
      assert r[i] == Trim(parts[i]);
      if i == 0 {
        TrimOfTrimmed(items[0]);
      } else {
        TrimLeadingSpace(items[i]);
      }
    }
  }

  /** The pieces of a joined list: the first item, then every later item after one space. */
  lemma JoinedPieces(items: seq<string>)
    requires |items| > 0
    requires forall i :: 0 <= i < |items| ==> ',' !in items[i]
    ensures var parts := Split(Join(items, ", "), ',');
      |parts| == |items| &&
      forall i :: 0 <= i < |items| ==> parts[i] == if i == 0 then items[0] else " " + items[i]
  {
    SplitJoined("", items);
    assert "" + Join(items, ", ") == Join(items, ", ");
    assert "" + items[0] == items[0];
    var parts := Split(Join(items, ", "), ',');
    var later := seq(|items| - 1, i requires 0 <= i < |items| - 1 => " " + items[i + 1]);
    assert parts == [items[0]] + later;
    forall i | 0 < i < |items|
      ensures parts[i] == " " + items[i]
    {
      assert parts[i] == later[i - 1];
    }
  }

  /**
   * Open-then-save round trip of a list field: the list comes back unchanged
   * exactly when it is non-empty and its items are comma-free and trimmed.
   */
  lemma RoundTrip(items: seq<string>)
    ensures SplitTrim(Display(Some(items))) == items <==> (|items| > 0 && Representable(items))
  {
    DisplayIsJoin(items);
    if |items| > 0 && Representable(items) {
      RoundTripPreserves(items);
    }
  }

  /** The save direction of the round trip, for a list field that may be missing. */
  lemma SavedAsShown(list: Option<seq<string>>)
    requires list.Some? && |list.value| > 0 && Representable(list.value)
    ensures Some(SplitTrim(Display(list))) == list
  {
    DisplayIsJoin(list.value);
    RoundTripPreserves(list.value);
  }

  /** The empty list does not survive: it is saved back as one empty item. */
  lemma EmptyListSavedAsBlank()
    ensures SplitTrim(Display(Some([]))) == [""]
    ensures SplitTrim(Display(None)) == [""]
  {
    assert Split("", ',') == [""];
  }
}
