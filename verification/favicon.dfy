/**
 * The synchronous part of the favicon resolver: domain extraction from an
 * application link, the placeholder image and the Google favicon-service URL.
 * The WHATWG URL parser is not modelled: its outcome on the link (the parsed
 * hostname, or `None` when `new URL(...)` throws) is passed in as `parsedHost`.
 */
module Favicon {
  import opened Wrappers
  import opened Strings
  import UriEncoding

  const DataUrlPrefix: string := "data:image/svg+xml;charset=utf-8,"
  const SvgHead: string :=
    "<svg width=\"64\" height=\"64\" xmlns=\"http://www.w3.org/2000/svg\"><rect width=\"64\" height=\"64\" fill=\"#000000\"/>"
    + "<text x=\"32\" y=\"42\" font-family=\"Arial, sans-serif\" font-size=\"36\" font-weight=\"bold\" fill=\"#FFFFFF\""
    + " text-anchor=\"middle\" dominant-baseline=\"middle\">"
  const SvgTail: string := "</text></svg>"
  const GoogleFaviconBase: string := "https://www.google.com/s2/favicons?domain="
  const GoogleFaviconSize: string := "&sz=64"

  /** `domain.charAt(0).toUpperCase()`: empty for the empty domain. */
  function Initial(domain: string): string {
    if |domain| == 0 then "" else [UpperChar(domain[0])]
  }

  /**
   * `charAt(0)` returns one UTF-16 code unit: for a first character outside
   * the Basic Multilingual Plane that is a lone high surrogate, on which
   * `encodeURIComponent` throws a `URIError`.
   */
  predicate InitialIsLoneSurrogate(domain: string) {
    |domain| > 0 && domain[0] as int >= 0x1_0000
  }

  function PlaceholderSvg(initial: string): string {
    SvgHead + initial + SvgTail
  }

  /**
   * `generatePlaceholderFavicon`: a data URL of a black square showing the
   * domain's initial, or `None` where the source throws.
   */
  function GeneratePlaceholderFavicon(domain: string): (r: Option<string>)
    ensures r.None? <==> InitialIsLoneSurrogate(domain)
    ensures r.Some? ==> |r.value| > |DataUrlPrefix| && r.value[..|DataUrlPrefix|] == DataUrlPrefix
    ensures r.Some? ==> forall i :: |DataUrlPrefix| <= i < |r.value| ==> UriEncoding.IsEncodedChar(r.value[i])
  {
    if InitialIsLoneSurrogate(domain) then None
    else
      Some(DataUrlPrefix + UriEncoding.Encode(PlaceholderSvg(Initial(domain))))
  }

  /** Two domains with the same upper-cased first character get the same placeholder. */
  lemma PlaceholderDependsOnlyOnInitial(d1: string, d2: string)
    requires |d1| > 0 && |d2| > 0 && UpperChar(d1[0]) == UpperChar(d2[0])
    requires !InitialIsLoneSurrogate(d1) && !InitialIsLoneSurrogate(d2)
    ensures GeneratePlaceholderFavicon(d1) == GeneratePlaceholderFavicon(d2)
  {
  }

  /**
   * Conversely, different ASCII initials give different placeholders: the
   * image is determined by, and determines, the upper-cased initial.
   */
  lemma PlaceholderDistinguishesInitials(d1: string, d2: string)
    requires |d1| > 0 && |d2| > 0 && d1[0] as int < 0x80 && d2[0] as int < 0x80
    requires UpperChar(d1[0]) != UpperChar(d2[0])
    ensures GeneratePlaceholderFavicon(d1) != GeneratePlaceholderFavicon(d2)
  {
    var x, y := Initial(d1), Initial(d2);
    if GeneratePlaceholderFavicon(d1) == GeneratePlaceholderFavicon(d2) {
      var e1 := UriEncoding.Encode(SvgHead + x + SvgTail);
      var e2 := UriEncoding.Encode(SvgHead + y + SvgTail);
      assert DataUrlPrefix + e1 == DataUrlPrefix + e2;
      assert e1 == (DataUrlPrefix + e1)[|DataUrlPrefix|..] == e2;
      UriEncoding.EncodeCancel(SvgHead, x, y, SvgTail);
    }
  }

  /** End of the maximal run of non-`/` characters of `s` starting at `i`. */
  function RunEnd(s: string, i: nat): (j: nat)
    requires i <= |s|
    ensures i <= j <= |s|
    ensures forall k :: i <= k < j ==> s[k] != '/'
    ensures j == |s| || s[j] == '/'
    decreases |s| - i
  {
    if i == |s| || s[i] == '/' then i else RunEnd(s, i + 1)
  }

  /**
   * The positions at which the group `([^\/]+)` of
   * `/(?:https?:\/\/)?(?:www\.)?([^\/]+)/` may start when the match starts at
   * `p`, in the order the backtracking engine tries them: both optional groups
   * taken, then the scheme alone, then `www.` alone, then neither.
   */
  function CaptureStarts(s: string, p: nat): seq<nat> {
    var scheme := SchemeLength(s, p);
    (if scheme > 0 && OccursAt(s, "www.", p + scheme) then [p + scheme + 4] else [])
    + (if scheme > 0 then [p + scheme] else [])
    + (if OccursAt(s, "www.", p) then [p + 4] else [])
    + [p]
  }

  /** The first candidate at which `[^\/]+` matches at least one character. */
  function FirstViable(s: string, starts: seq<nat>): (r: Option<nat>)
    ensures r.Some? ==> r.value in starts && r.value < |s| && s[r.value] != '/'
    ensures r.None? ==> forall k :: 0 <= k < |starts| ==> starts[k] >= |s| || s[starts[k]] == '/'
  {
    if |starts| == 0 then None
    else if starts[0] < |s| && s[starts[0]] != '/' then Some(starts[0])
    else FirstViable(s, starts[1..])
  }

  /** The capture of a match attempt at position `p`, if the attempt succeeds. */
  function MatchAt(s: string, p: nat): Option<string> {
    match FirstViable(s, CaptureStarts(s, p))
    case None => None
    case Some(c) => Some(s[c..RunEnd(s, c)])
  }

  /** An attempt succeeds exactly at positions holding a character other than `/`. */
  lemma MatchAtSucceeds(s: string, p: nat)
    requires p < |s|
    ensures MatchAt(s, p).Some? <==> s[p] != '/'
  {
    var starts := CaptureStarts(s, p);
    if s[p] == '/' {
      assert !OccursAt(s, "https://", p) && !OccursAt(s, "http://", p) && !OccursAt(s, "www.", p);
      assert starts == [p];
    } else {
      assert starts[|starts| - 1] == p;
    }
  }

  /** `String.prototype.match` tries the positions from `p` onwards in order. */
  function FallbackFrom(s: string, p: nat): (r: Option<string>)
    ensures r.Some? ==> |r.value| > 0 && '/' !in r.value
    decreases |s| - p
  {
    if p >= |s| then None
    else
      match MatchAt(s, p)
      case Some(m) => Some(m)
      case None => FallbackFrom(s, p + 1)
  }

  /** The search fails exactly when nothing but `/` is left from `p` on. */
  lemma {:induction false} FallbackFromNone(s: string, p: nat)
    ensures FallbackFrom(s, p).None? <==> forall k :: p <= k < |s| ==> s[k] == '/'
    decreases |s| - p
  {
    if p < |s| {
      MatchAtSucceeds(s, p);
      FallbackFromNone(s, p + 1);
    }
  }

  /** The regular-expression fallback of `extractDomain`, `match ? match[1] : null`. */
  function RegexFallback(url: string): (r: Option<string>)
    ensures r.None? <==> forall k :: 0 <= k < |url| ==> url[k] == '/'
    ensures r.Some? ==> |r.value| > 0 && '/' !in r.value
  {
    FallbackFromNone(url, 0);
    FallbackFrom(url, 0)
  }

  /** When the first candidate at position 0 is viable, the fallback captures the run there. */
  lemma FallbackAtStart(s: string, c: nat)
    requires |CaptureStarts(s, 0)| > 0 && CaptureStarts(s, 0)[0] == c
    requires c < |s| && s[c] != '/'
    ensures RegexFallback(s) == Some(s[c..RunEnd(s, c)])
  {
    assert FirstViable(s, CaptureStarts(s, 0)) == Some(c);
    assert MatchAt(s, 0) == Some(s[c..RunEnd(s, c)]);
  }

  /** Length of the `https?:\/\/` group when the engine can take it at position `p`, else 0. */
  function SchemeLength(s: string, p: nat): nat {
    if OccursAt(s, "https://", p) then 8 else if OccursAt(s, "http://", p) then 7 else 0
  }

  lemma SchemeAtStart(scheme: string, tail: string)
    requires scheme == "http://" || scheme == "https://"
    ensures SchemeLength(scheme + tail, 0) == |scheme|
    ensures !OccursAt(scheme + tail, "www.", 0)
  {
    var s := scheme + tail;
    assert s[..|scheme|] == scheme;
    assert s[0] == 'h';
    if scheme == "http://" {
      assert s[4] == ':';
      OccursAtChar(s, "https://", 0, 4);
    }
    OccursAtChar(s, "www.", 0, 0);
  }

  /** After a scheme, the first candidate is the position past the scheme and any `www.`. */
  lemma FirstCaptureAfterScheme(s: string)
    requires SchemeLength(s, 0) > 0
    ensures var k := SchemeLength(s, 0);
      CaptureStarts(s, 0)[0] == if OccursAt(s, "www.", k) then k + 4 else k
  {
  }

  /** With a scheme at the start, the capture begins after the scheme and any `www.`. */
  lemma FallbackPastScheme(s: string, c: nat)
    requires SchemeLength(s, 0) > 0
    requires c == if OccursAt(s, "www.", SchemeLength(s, 0)) then SchemeLength(s, 0) + 4 else SchemeLength(s, 0)
    requires c < |s| && s[c] != '/'
    ensures RegexFallback(s) == Some(s[c..RunEnd(s, c)])
  {
    FirstCaptureAfterScheme(s);
    FallbackAtStart(s, c);
  }

  /** Once the engine's prefix groups are known to cover `prefix`, the capture is the run after it. */
  lemma FallbackAfterPrefix(prefix: string, rest: string)
    requires SchemeLength(prefix + rest, 0) > 0
    requires var k := SchemeLength(prefix + rest, 0);
      |prefix| == if OccursAt(prefix + rest, "www.", k) then k + 4 else k
    requires |rest| > 0 && rest[0] != '/'
    ensures RegexFallback(prefix + rest) == Some(rest[..RunEnd(rest, 0)])
  {
    var s := prefix + rest;
    assert s[|prefix|..] == rest;
    FallbackPastScheme(s, |prefix|);
    RunEndShift(s, |prefix|);
  }

  /** The fallback skips an `http://` or `https://` scheme and a `www.` before the host. */
  lemma FallbackSkipsSchemeAndWww(scheme: string, rest: string)
    requires scheme == "http://" || scheme == "https://"
    requires |rest| > 0 && rest[0] != '/'
    ensures RegexFallback(scheme + "www." + rest) == Some(rest[..RunEnd(rest, 0)])
  {
    var tail := "www." + rest;
    SchemeAtStart(scheme, tail);
    assert OccursAt(tail, "www.", 0) by {
      assert tail[0..4] == "www.";
    }
    WwwAfterPrefix(scheme, tail);
    AppendAssoc(scheme, "www.", rest);
    FallbackAfterPrefix(scheme + "www.", rest);
  }

  /** The fallback skips an `http://` or `https://` scheme not followed by `www.`. */
  lemma FallbackSkipsScheme(scheme: string, rest: string)
    requires scheme == "http://" || scheme == "https://"
    requires |rest| > 0 && rest[0] != '/' && !OccursAt(rest, "www.", 0)
    ensures RegexFallback(scheme + rest) == Some(rest[..RunEnd(rest, 0)])
  {
    SchemeAtStart(scheme, rest);
    WwwAfterPrefix(scheme, rest);
    FallbackAfterPrefix(scheme, rest);
  }

  /** Without a scheme, a leading `www.` is skipped when a host character follows it. */
  lemma FallbackSkipsWww(rest: string)
    requires |rest| > 0 && rest[0] != '/'
    ensures RegexFallback("www." + rest) == Some(rest[..RunEnd(rest, 0)])
  {
    var s := "www." + rest;
    assert s[..4] == "www." && s[4..] == rest;
    assert OccursAt(s, "www.", 0);
    assert SchemeLength(s, 0) == 0 by {
      OccursAtChar(s, "https://", 0, 0);
      OccursAtChar(s, "http://", 0, 0);
    }
    assert CaptureStarts(s, 0)[0] == 4;
    FallbackAtStart(s, 4);
    RunEndShift(s, 4);
  }

  /** When no host character follows a leading `www.`, the engine backtracks and captures `www.` itself. */
  lemma FallbackKeepsBareWww(rest: string)
    requires |rest| == 0 || rest[0] == '/'
    ensures RegexFallback("www." + rest) == Some("www.")
  {
    var s := "www." + rest;
    assert s[..4] == "www.";
    assert OccursAt(s, "www.", 0);
    assert SchemeLength(s, 0) == 0 by {
      OccursAtChar(s, "https://", 0, 0);
      OccursAtChar(s, "http://", 0, 0);
    }
    assert CaptureStarts(s, 0) == [4, 0];
    assert FirstViable(s, CaptureStarts(s, 0)) == Some(0);
    assert RunEnd(s, 4) == 4;
    assert RunEnd(s, 0) == 4;
  }

  /**
   * Input with neither a scheme nor `www.` at its start, as reaches the
   * fallback when `new URL` rejects a link without a scheme: the capture is
   * the leading run of non-`/` characters.
   */
  lemma FallbackPlainHost(s: string)
    requires |s| > 0 && s[0] != '/'
    requires !OccursAt(s, "http://", 0) && !OccursAt(s, "https://", 0) && !OccursAt(s, "www.", 0)
    ensures RegexFallback(s) == Some(s[..RunEnd(s, 0)])
  {
    assert CaptureStarts(s, 0) == [0];
    FallbackAtStart(s, 0);
  }

  lemma AppendAssoc(a: string, b: string, c: string)
    ensures a + (b + c) == (a + b) + c
  {
  }

  /** `www.` occurs right after a prefix exactly when the rest begins with it. */
  lemma WwwAfterPrefix(prefix: string, rest: string)
    ensures OccursAt(prefix + rest, "www.", |prefix|) <==> OccursAt(rest, "www.", 0)
  {
    var s := prefix + rest;
    var k := |prefix|;
    if k + 4 <= |s| {
      assert s[k..k + 4] == rest[0..4];
    }
  }

  /** The run found inside a string equals the run found in its suffix. */
  lemma {:induction false} RunEndShift(s: string, n: nat)
    requires n <= |s|
    ensures s[n..RunEnd(s, n)] == s[n..][..RunEnd(s[n..], 0)]
    decreases |s| - n
  {
    RunEndOffset(s, n, n);
  }

  lemma {:induction false} RunEndOffset(s: string, n: nat, i: nat)
    requires n <= i <= |s|
    ensures RunEnd(s, i) == n + RunEnd(s[n..], i - n)
    decreases |s| - i
  {
    if i < |s| && s[i] != '/' {
      RunEndOffset(s, n, i + 1);
    }
  }

  /**
   * `extractDomain`: the parsed hostname with the first `www.` removed
   * (wherever it occurs), or the regular-expression fallback when parsing
   * throws; `None` stands for `null`.
   */
  function ExtractDomain(url: string, parsedHost: Option<string>): (r: Option<string>)
    ensures parsedHost.Some? ==> r.Some?
    ensures parsedHost.None? ==> (r.None? <==> forall k :: 0 <= k < |url| ==> url[k] == '/')
    ensures parsedHost.None? && r.Some? ==> |r.value| > 0 && '/' !in r.value
  {
    match parsedHost
    case Some(host) => Some(RemoveFirst(host, Www))
    case None => RegexFallback(url)
  }

  const Www: string := "www."

  /** A hostname without `www.` is returned as it is. */
  lemma ExtractDomainKeepsPlainHost(url: string, host: string)
    requires forall j: nat :: !OccursAt(host, Www, j)
    ensures ExtractDomain(url, Some(host)) == Some(host)
  {
  }

  /** A parsed hostname loses exactly its first `www.`, wherever it occurs. */
  lemma ExtractDomainRemovesFirstWww(url: string, host: string, i: nat)
    requires OccursAt(host, Www, i)
    requires forall j: nat :: j < i ==> !OccursAt(host, Www, j)
    ensures ExtractDomain(url, Some(host)) == Some(host[..i] + host[i + 4..])
  {
    assert OccursAt(host, Www, i);
  }

  /**
   * The `www.` removed is the first one, not necessarily a prefix of the
   * hostname: `docs.www.example.org` becomes `docs.example.org`.
   */
  lemma ExtractDomainRemovesInnerWww(url: string, a: string, b: string)
    requires 'w' !in a
    ensures ExtractDomain(url, Some(a + "www." + b)) == Some(a + b)
  {
    var h := a + "www." + b;
    var k := |a|;
    assert h[k..k + 4] == "www.";
    assert OccursAt(h, "www.", k);
    forall j: nat | j < k
      ensures !OccursAt(h, "www.", j)
    {
      assert h[j] == a[j] != 'w';
      OccursAtChar(h, "www.", j, 0);
    }
    assert h[..k] == a && h[k + 4..] == b;
    ExtractDomainRemovesFirstWww(url, h, k);
  }

  /** The placeholder for `?`: its initial is ASCII, so it never throws. */
  const QuestionPlaceholder: string := GeneratePlaceholderFavicon("?").value

  /**
   * `getFaviconUrlSync`: the placeholder for `?` when no domain can be
   * extracted (or it is empty), otherwise the Google favicon-service URL with
   * the domain inserted as it is, without escaping.
   */
  function GetFaviconUrlSync(url: string, parsedHost: Option<string>): (r: string)
    ensures var d := ExtractDomain(url, parsedHost);
      d.None? || d.value == "" ==> r == QuestionPlaceholder
    ensures var d := ExtractDomain(url, parsedHost);
      d.Some? && d.value != "" ==> r == GoogleFaviconBase + d.value + GoogleFaviconSize
  {
    var domain := ExtractDomain(url, parsedHost);
    if domain.None? || domain.value == "" then QuestionPlaceholder
    else GoogleFaviconBase + domain.value + GoogleFaviconSize
  }

  /**
   * The two outcomes cannot be confused: the result is a data URL exactly when
   * no domain was found, and otherwise the domain can be read back out of it.
   */
  lemma FaviconUrlRecoversDomain(url: string, parsedHost: Option<string>)
    ensures var r := GetFaviconUrlSync(url, parsedHost);
      var d := ExtractDomain(url, parsedHost);
      (|r| >= |DataUrlPrefix| && r[..|DataUrlPrefix|] == DataUrlPrefix) <==> (d.None? || d.value == "")
    ensures var r := GetFaviconUrlSync(url, parsedHost);
      var d := ExtractDomain(url, parsedHost);
      d.Some? && d.value != "" ==>
        r[|GoogleFaviconBase|..|r| - |GoogleFaviconSize|] == d.value
  {
    var r := GetFaviconUrlSync(url, parsedHost);
    var d := ExtractDomain(url, parsedHost);
    if d.Some? && d.value != "" {
      var base, size := GoogleFaviconBase, GoogleFaviconSize;
      assert r == base + d.value + size;
      assert |base| == 42 && |size| == 6 && |DataUrlPrefix| == 33;
      assert r[0] == base[0] == 'h';
      assert DataUrlPrefix[0] == 'd';
      assert r[|base|..|r| - |size|] == d.value;
    }
  }
}
