/** The rule lists and hostname helpers of defaults.go. A compiled regular
    expression is a `Pattern`: its source text, which goes into the reasons
    the rules report, paired with the predicate `MatchString` computes. Go's
    regular-expression engine is not modelled; `^utm_`, `^www.` and
    `\.[^\.]+?$` are written out by hand. */
module Defaults {
  import opened Wrappers
  import opened Urls
  import opened Text

  datatype Pattern<!T> = Pattern(source: string, matches: T -> bool)

  /** Pattern `i` matches `x` and none before it does. */
  predicate IsFirstMatch<T>(patterns: seq<Pattern<T>>, i: int, x: T)
  {
    0 <= i < |patterns| && patterns[i].matches(x) && forall j :: 0 <= j < i ==> !patterns[j].matches(x)
  }

  /** The index of the first pattern, in list order, that matches `x`. */
  function FirstMatch<T>(patterns: seq<Pattern<T>>, x: T): (r: Option<nat>)
    ensures r.Some? ==> r.value < |patterns| && patterns[r.value].matches(x)
    ensures r.Some? ==> forall j :: 0 <= j < r.value ==> !patterns[j].matches(x)
    ensures r.None? <==> forall j :: 0 <= j < |patterns| ==> !patterns[j].matches(x)
  {
    if patterns == [] then None
    else if patterns[0].matches(x) then Some(0)
    else match FirstMatch(patterns[1..], x)
      case None => None
      case Some(i) => Some(i + 1)
  }

  function IgnoreReason(source: string): string
  {
    "Matched Ignore Rule `" + source + "`"
  }

  function CleanerReason(source: string): string
  {
    "Matched cleaner rule `" + source + "`"
  }

  /** `IgnoreURLsRegExList`: each pattern is matched against the text of
      the URL (`url.String()`, which is part of the predicate). */
  datatype IgnoreURLsRegExList = IgnoreURLsRegExList(patterns: seq<Pattern<Url>>)
  {
    /** Ignores the URL for the first pattern that matches it, naming that
        pattern in the reason. */
    function IgnoreDiscoveredResource(u: Url): (r: (bool, string))
      ensures !r.0 <==> forall j :: 0 <= j < |patterns| ==> !patterns[j].matches(u)
      ensures !r.0 ==> r.1 == ""
      ensures r.0 ==> exists i :: IsFirstMatch(patterns, i, u) && r.1 == IgnoreReason(patterns[i].source)
    {
      match FirstMatch(patterns, u)
      case None => (false, "")
      case Some(i) => (true, IgnoreReason(patterns[i].source))
    }
  }

  /** `RemoveParamsFromURLsRegExList`: each pattern is matched against a
      query parameter name. */
  datatype RemoveParamsFromURLsRegExList = RemoveParamsFromURLsRegExList(patterns: seq<Pattern<string>>)
  {
    /** Every URL is offered for cleaning. */
    predicate CleanDiscoveredResource(u: Url)
    {
      true
    }

    /** Removes the parameter for the first pattern that matches its name,
        naming that pattern in the reason. */
    function RemoveQueryParamFromResource(paramName: string): (r: (bool, string))
      ensures !r.0 <==> forall j :: 0 <= j < |patterns| ==> !patterns[j].matches(paramName)
      ensures !r.0 ==> r.1 == ""
      ensures r.0 ==> exists i :: IsFirstMatch(patterns, i, paramName) && r.1 == CleanerReason(patterns[i].source)
    {
      match FirstMatch(patterns, paramName)
      case None => (false, "")
      case Some(i) => (true, CleanerReason(patterns[i].source))
    }
  }

  /** What `^utm_` matches: names that begin with "utm_". */
  predicate MatchesUtmPrefix(name: string)
  {
    HasPrefix(name, "utm_")
  }

  /** `DefaultCleanURLsRegExList`. */
  const DefaultCleanURLsRegExList: RemoveParamsFromURLsRegExList :=
    RemoveParamsFromURLsRegExList([Pattern("^utm_", MatchesUtmPrefix)])

  /** The default clean list removes exactly the parameters whose names start
      with "utm_", and says that `^utm_` was the rule. */
  lemma DefaultCleanRemovesUtm(name: string)
    ensures DefaultCleanURLsRegExList.RemoveQueryParamFromResource(name)
      == if HasPrefix(name, "utm_") then (true, "Matched cleaner rule `^utm_`") else (false, "")
  {
    assert DefaultCleanURLsRegExList.patterns[0].matches(name) == HasPrefix(name, "utm_");
    assert CleanerReason("^utm_") == "Matched cleaner rule `^utm_`";
  }

  /** Empty lists neither ignore nor remove anything. */
  lemma EmptyListsDoNothing(u: Url, paramName: string)
    ensures IgnoreURLsRegExList([]).IgnoreDiscoveredResource(u) == (false, "")
    ensures RemoveParamsFromURLsRegExList([]).RemoveQueryParamFromResource(paramName) == (false, "")
  {
  }

  /** `DefaultWebPrefixRegEx.ReplaceAllString(h, "")` for `^www.`: the
      pattern is anchored at the start, so it matches at most once, and its
      `.` is any character but a newline. */
  function StripWebPrefix(h: string): (r: string)
    ensures r != h <==> |h| >= 4 && h[..3] == "www" && h[3] != '\n'
    ensures r != h ==> h == h[..4] + r
  {
    if |h| >= 4 && h[..3] == "www" && h[3] != '\n' then h[4..] else h
  }

  /** The position of the last dot in `s`, if any. */
  function LastDot(s: string): (r: Option<nat>)
    ensures r.Some? ==> r.value < |s| && s[r.value] == '.' && '.' !in s[r.value + 1..]
    ensures r.Some? ==> forall j :: r.value < j < |s| ==> s[j] != '.'
    ensures r.None? <==> '.' !in s
  {
    if s == [] then None
    else if s[|s| - 1] == '.' then Some(|s| - 1)
    else
      var r := LastDot(s[..|s| - 1]);
      assert r.Some? ==> s[r.value + 1..] == s[..|s| - 1][r.value + 1..] + [s[|s| - 1]];
      assert s == s[..|s| - 1] + [s[|s| - 1]];
      r
  }

  /** `DefaultTopLevelDomainSuffixRegEx.ReplaceAllString(s, "")` for
      `\.[^\.]+?$`: a match is a dot followed by at least one non-dot up to
      the end of the text, so it can only start at the last dot, and only when
      something follows that dot. */
  function StripLastLabel(s: string): (r: string)
    ensures r == s <==> ('.' !in s || s[|s| - 1] == '.')
    ensures r != s ==> |r| < |s| - 1 && s == r + "." + s[|r| + 1..] && '.' !in s[|r| + 1..]
  {
    match LastDot(s)
    case None => s
    case Some(i) =>
      if i == |s| - 1 then s
      else
        assert s == s[..i] + "." + s[i + 1..];
        s[..i]
  }

  /** `GetSimplifiedHostname`: the host without a leading `www` and the
      character after it. */
  function GetSimplifiedHostname(u: Url): string
  {
    StripWebPrefix(u.host)
  }

  /** `GetSimplifiedHostnameWithoutTLD`: the simplified host without its
      last dot-label. */
  function GetSimplifiedHostnameWithoutTLD(u: Url): string
  {
    StripLastLabel(GetSimplifiedHostname(u))
  }

  /** The prefix is removed once: what is left may itself start with
      `www`. */
  lemma WebPrefixStrippedOnce()
    ensures StripWebPrefix("wwwwwww.example") == "www.example"
    ensures StripWebPrefix("www\nexample") == "www\nexample"
  {
    assert "wwwwwww.example"[..3] == "www";
  }

  lemma WebPrefixExamples()
    ensures StripWebPrefix("www.netspective.com") == "netspective.com"
    ensures StripWebPrefix("news.healthcareguys.com") == "news.healthcareguys.com"
  {
    assert "www.netspective.com"[..3] == "www";
    assert "news.healthcareguys.com"[..3] == "new";
  }

  lemma LastLabelExampleShort()
    ensures StripLastLabel("netspective.com") == "netspective"
  {
    LastDotAt("netspective.com", 11);
  }

  lemma LastLabelExampleLong()
    ensures StripLastLabel("news.healthcareguys.com") == "news.healthcareguys"
  {
    LastDotAt("news.healthcareguys.com", 19);
  }

  /** The two hosts of resource_test.go:102-109. */
  lemma SimplifiedHostnameExamples(u: Url, v: Url)
    requires u.host == "www.netspective.com" && v.host == "news.healthcareguys.com"
    ensures GetSimplifiedHostname(u) == "netspective.com"
    ensures GetSimplifiedHostnameWithoutTLD(u) == "netspective"
    ensures GetSimplifiedHostname(v) == "news.healthcareguys.com"
    ensures GetSimplifiedHostnameWithoutTLD(v) == "news.healthcareguys"
  {
    WebPrefixExamples();
    LastLabelExampleShort();
    LastLabelExampleLong();
  }

  /** `LastDot` finds a dot with no dot after it. */
  lemma LastDotAt(s: string, i: nat)
    requires i < |s| && s[i] == '.' && forall j :: i < j < |s| ==> s[j] != '.'
    ensures LastDot(s) == Some(i)
  {
    assert s[i] in s;
  }
}
