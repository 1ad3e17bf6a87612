/** `HarvestedResource` and `cleanResource` (resource.go:244-428): the
    resolution of one discovered URL text. `ResourceView` is the record as
    its accessors see it, `Resolve` is what `harvestResource` leaves in it,
    and `Cleaned` is what `cleanResource` returns. The class
    `HarvestedResource` is the record filled in place; the method that
    fills it is `ContentHarvester.HarvestResource` in harvester.dfy, because
    it also records the content in the harvester. */
module Resource {
  import opened Wrappers
  import opened Text
  import opened Urls
  import opened Rules
  import opened Transport
  import opened Content

  datatype ResourceView = ResourceView(
    harvestedOn: int,
    origURLtext: string,
    isURLValid: bool,
    isDestValid: bool,
    httpStatusCode: int,
    isURLIgnored: bool,
    ignoreReason: string,
    isURLCleaned: bool,
    isURLAttachment: bool,
    resolvedURL: Option<Url>,
    cleanedURL: Option<Url>,
    finalURL: Option<Url>,
    resourceContent: Option<ContentView>)
  {
    function OriginalURLText(): string
    {
      origURLtext
    }

    function IsValid(): (bool, bool)
    {
      (isURLValid, isDestValid)
    }

    function IsIgnored(): (bool, string)
    {
      (isURLIgnored, ignoreReason)
    }

    function IsCleaned(): (bool, Option<Url>)
    {
      (isURLCleaned, cleanedURL)
    }

    /** The final, the resolved and the cleaned URL. */
    function GetURLs(): (Option<Url>, Option<Url>, Option<Url>)
    {
      (finalURL, resolvedURL, cleanedURL)
    }

    /** The content's redirect, and no redirect when there is no content. */
    function IsHTMLRedirect(): (bool, string)
    {
      if resourceContent.Some? then resourceContent.value.IsHTMLRedirect() else (false, "")
    }
  }

  /** The record as `harvestResource` starts it. */
  function Started(text: string, now: int): ResourceView
  {
    ResourceView(now, text, false, false, 0, false, "", false, false, None, None, None, None)
  }

  function InvalidURLReason(text: string): string
  {
    "Invalid URL '" + text + "'"
  }

  function InvalidStatusReason(code: int): string
  {
    "Invalid HTTP Status Code " + DecimalString(code)
  }

  /** The query without the parameters the rule removes. */
  function Kept(q: Query, rule: CleanRule): (r: Query)
    ensures r.Keys <= q.Keys
    ensures forall k :: k in r ==> r[k] == q[k] && !rule.Removes(k)
    ensures forall k :: k in q && !rule.Removes(k) ==> k in r
  {
    map k | k in q && !rule.Removes(k) :: q[k]
  }

  /** What `cleanResource` returns, with `None` for `(false, nil)`: the
      rule declines the URL, or no parameter name is one it removes, or the
      URL with exactly those parameters taken out of its query. */
  function Cleaned(u: Url, rule: CleanRule): (r: Option<Url>)
    ensures r.None? <==> !rule.CleanDiscoveredResource(u) || forall k :: k in u.query ==> !rule.Removes(k)
    ensures r.Some? ==> r.value == u.(query := Kept(u.query, rule))
  {
    if rule.CleanDiscoveredResource(u) && exists k :: k in u.query && rule.Removes(k) then
      Some(u.(query := Kept(u.query, rule)))
    else None
  }

  /** The query while `cleanResource` is still to ask about the names in
      `pending`. */
  function Remaining(q: Query, pending: set<string>, rule: CleanRule): Query
  {
    map k | k in q && (k in pending || !rule.Removes(k)) :: q[k]
  }

  lemma RemainingStep(q: Query, pending: set<string>, name: string, rule: CleanRule)
    requires name in pending && pending <= q.Keys
    ensures Remaining(q, pending - {name}, rule)
      == if rule.Removes(name) then Remaining(q, pending, rule) - {name} else Remaining(q, pending, rule)
  {
  }

  lemma RemainingDone(q: Query, rule: CleanRule)
    ensures Remaining(q, {}, rule) == Kept(q, rule)
    ensures Remaining(q, q.Keys, rule) == q
  {
  }

  /** One parameter `cleanResource` took out, with the rule's reason. */
  datatype ParamMatch = ParamMatch(paramName: string, reason: string)

  /** `cleanResource`: asks the rule about every parameter name, in the
      map's (unspecified) order, removing the ones it names. */
  method CleanResource(u: Url, rule: CleanRule) returns (cleaned: bool, r: Option<Url>)
    ensures cleaned <==> r.Some?
    ensures r == Cleaned(u, rule)
  {
    if !rule.CleanDiscoveredResource(u) {
      return false, None;
    }
    var harvestedParams := u.query;
    var cleanedParams: seq<ParamMatch> := [];
    var pending := u.query.Keys;
    RemainingDone(u.query, rule);
    while pending != {}
      invariant pending <= u.query.Keys
      invariant harvestedParams == Remaining(u.query, pending, rule)
      invariant cleanedParams == [] <==> forall k :: k in u.query && k !in pending ==> !rule.Removes(k)
      invariant forall p :: p in cleanedParams ==>
                  p.paramName in u.query && p.paramName !in pending && rule.RemoveQueryParamFromResource(p.paramName) == (true, p.reason)
      decreases pending
    {
      var paramName :| paramName in pending;
      RemainingStep(u.query, pending, paramName, rule);
      var remove := rule.RemoveQueryParamFromResource(paramName);
      if remove.0 {
        harvestedParams := harvestedParams - {paramName};
        cleanedParams := cleanedParams + [ParamMatch(paramName, remove.1)];
      }
      pending := pending - {paramName};
    }
    if |cleanedParams| > 0 {
      return true, Some(u.(query := harvestedParams));
    }
    return false, None;
  }

  /** A cleaned URL has nothing left to clean. */
  lemma CleanedIsClean(u: Url, rule: CleanRule)
    requires Cleaned(u, rule).Some?
    ensures Cleaned(Cleaned(u, rule).value, rule).None?
  {
  }

  /** When the rule removes every parameter, the cleaned query is empty. */
  lemma CleanedAllRemoved(u: Url, rule: CleanRule)
    requires rule.CleanDiscoveredResource(u) && u.query != map[]
    requires forall k :: k in u.query ==> rule.Removes(k)
    ensures Cleaned(u, rule).Some? && Cleaned(u, rule).value.query == map[]
  {
    var k :| k in u.query;
    assert rule.Removes(k);
  }

  /** What `harvestResource` leaves in the record, given what the GET of
      the text returned and the time it read. */
  function Resolve(ignore: IgnoreRule, clean: CleanRule, text: string, fetch: Fetch, now: int): ResourceView
  {
    var r := Started(text, now);
    match fetch
    case TransportError(_) =>
      r.(isURLValid := false, isDestValid := false, isURLIgnored := true, ignoreReason := InvalidURLReason(text))
    case Responded(resp) =>
      var r1 := r.(isURLValid := true, httpStatusCode := resp.statusCode);
      if resp.statusCode != 200 then
        r1.(isDestValid := false, isURLIgnored := true, ignoreReason := InvalidStatusReason(resp.statusCode))
      else
        var u := resp.requestURL;
        var r2 := r1.(resolvedURL := Some(u), finalURL := Some(u));
        var ignored := ignore.IgnoreDiscoveredResource(u);
        if ignored.0 then
          r2.(isDestValid := true, isURLIgnored := true, ignoreReason := ignored.1)
        else
          Accepted(clean, r2.(isURLIgnored := false, isDestValid := true), resp)
  }

  /** The last stage of `harvestResource` (resource.go:409-420), from the
      record `r` as the ignore rule let it through: cleaning, then content
      detection against the final URL. */
  function Accepted(clean: CleanRule, r: ResourceView, resp: Response): ResourceView
  {
    var c := Cleaned(resp.requestURL, clean);
    var r1 := if c.Some? then r.(cleanedURL := c, finalURL := c, isURLCleaned := true) else r.(isURLCleaned := false);
    r1.(resourceContent := Some(Detected(if r1.finalURL.Some? then r1.finalURL.value else resp.requestURL, resp)))
  }

  /** What every resolution records: the text, the time, whether the GET
      returned, and the status code when it did. */
  lemma ResolveRecords(ignore: IgnoreRule, clean: CleanRule, text: string, fetch: Fetch, now: int)
    ensures var r := Resolve(ignore, clean, text, fetch, now);
      && r.origURLtext == text && r.harvestedOn == now && !r.isURLAttachment
      && (r.isURLValid <==> fetch.Responded?)
      && (fetch.Responded? ==> r.httpStatusCode == fetch.resp.statusCode)
  {
  }

  /** The first early exit: the GET failed. */
  lemma ResolveTransportError(ignore: IgnoreRule, clean: CleanRule, text: string, fetch: Fetch, now: int)
    requires fetch.TransportError?
    ensures var r := Resolve(ignore, clean, text, fetch, now);
      && !r.isURLValid && !r.isDestValid && r.isURLIgnored && r.ignoreReason == InvalidURLReason(text)
      && r.resolvedURL.None? && r.finalURL.None? && r.resourceContent.None? && !r.isURLCleaned
  {
  }

  /** The second early exit: a status other than 200. */
  lemma ResolveBadStatus(ignore: IgnoreRule, clean: CleanRule, text: string, fetch: Fetch, now: int)
    requires fetch.Responded? && fetch.resp.statusCode != 200
    ensures var r := Resolve(ignore, clean, text, fetch, now);
      && r.isURLValid && !r.isDestValid && r.isURLIgnored
      && r.httpStatusCode == fetch.resp.statusCode
      && r.ignoreReason == InvalidStatusReason(fetch.resp.statusCode)
      && r.resolvedURL.None? && r.finalURL.None? && r.resourceContent.None? && !r.isURLCleaned
  {
  }

  /** The third early exit: the ignore rule fires on the URL the response
      came from. */
  lemma ResolveIgnored(ignore: IgnoreRule, clean: CleanRule, text: string, fetch: Fetch, now: int)
    requires fetch.Responded? && fetch.resp.statusCode == 200
    requires ignore.IgnoreDiscoveredResource(fetch.resp.requestURL).0
    ensures var r := Resolve(ignore, clean, text, fetch, now);
      && r.isURLValid && r.isDestValid && r.isURLIgnored
      && r.ignoreReason == ignore.IgnoreDiscoveredResource(fetch.resp.requestURL).1
      && r.resolvedURL == Some(fetch.resp.requestURL) && r.finalURL == r.resolvedURL
      && !r.isURLCleaned && r.cleanedURL.None? && r.resourceContent.None?
  {
  }

  /** The full path: the resolved URL is cleaned, the final URL is the
      cleaned one when cleaning removed something and the resolved one
      otherwise, and the content is detected against the final URL. */
  lemma ResolveAccepted(ignore: IgnoreRule, clean: CleanRule, text: string, fetch: Fetch, now: int)
    requires fetch.Responded? && fetch.resp.statusCode == 200
    requires !ignore.IgnoreDiscoveredResource(fetch.resp.requestURL).0
    ensures var r := Resolve(ignore, clean, text, fetch, now);
      && r.isURLValid && r.isDestValid && !r.isURLIgnored && r.ignoreReason == ""
      && r.resolvedURL == Some(fetch.resp.requestURL)
      && r.cleanedURL == Cleaned(fetch.resp.requestURL, clean)
      && r.isURLCleaned == r.cleanedURL.Some?
      && r.finalURL == (if r.isURLCleaned then r.cleanedURL else r.resolvedURL)
      && r.resourceContent == Some(Detected(r.finalURL.value, fetch.resp))
  {
  }

  /** The relations every resolved record keeps between its fields. */
  predicate Consistent(r: ResourceView)
  {
    && (!r.isURLValid ==> !r.isDestValid && r.isURLIgnored)
    && (r.resolvedURL.Some? <==> r.isURLValid && r.httpStatusCode == 200)
    && (r.finalURL.Some? <==> r.resolvedURL.Some?)
    && (r.isURLCleaned <==> r.cleanedURL.Some?)
    && (r.isURLCleaned ==> r.finalURL == r.cleanedURL && !r.isURLIgnored)
    && (!r.isURLCleaned ==> r.finalURL == r.resolvedURL)
    && (r.resourceContent.Some? <==> r.isDestValid && !r.isURLIgnored)
    && (r.resourceContent.Some? ==> r.finalURL.Some? && r.resourceContent.value.url == r.finalURL.value)
    && (r.isDestValid <==> r.resolvedURL.Some?)
  }

  lemma ResolveConsistent(ignore: IgnoreRule, clean: CleanRule, text: string, fetch: Fetch, now: int)
    ensures Consistent(Resolve(ignore, clean, text, fetch, now))
  {
  }

  /** Once the GET has returned, the text plays no further part: the rules
      see only the URL the response came from. */
  lemma ResolveIgnoresText(ignore: IgnoreRule, clean: CleanRule, t1: string, t2: string, fetch: Fetch, now: int)
    requires fetch.Responded?
    ensures Resolve(ignore, clean, t1, fetch, now) == Resolve(ignore, clean, t2, fetch, now).(origURLtext := t1)
  {
  }

  /** The record filled in place. */
  class HarvestedResource {
    var harvestedOn: int
    var origURLtext: string
    var origResource: HarvestedResource?
    var isURLValid: bool
    var isDestValid: bool
    var httpStatusCode: int
    var isURLIgnored: bool
    var ignoreReason: string
    var isURLCleaned: bool
    var isURLAttachment: bool
    var resolvedURL: Option<Url>
    var cleanedURL: Option<Url>
    var finalURL: Option<Url>
    var resourceContent: HarvestedResourceContent?

    function View(): ResourceView
      reads this, resourceContent
    {
      ResourceView(harvestedOn, origURLtext, isURLValid, isDestValid, httpStatusCode, isURLIgnored, ignoreReason,
        isURLCleaned, isURLAttachment, resolvedURL, cleanedURL, finalURL,
        if resourceContent == null then None else Some(resourceContent.View()))
    }

    /** The record `harvestResource` hands back, with the given fields and
        content and no referrer yet. */
    constructor (r: ResourceView, content: HarvestedResourceContent?)
      requires r.resourceContent == (if content == null then None else Some(content.View()))
      ensures View() == r
      ensures origResource == null && resourceContent == content
    {
      harvestedOn, origURLtext, origResource := r.harvestedOn, r.origURLtext, null;
      isURLValid, isDestValid, httpStatusCode := r.isURLValid, r.isDestValid, r.httpStatusCode;
      isURLIgnored, ignoreReason, isURLCleaned, isURLAttachment := r.isURLIgnored, r.ignoreReason, r.isURLCleaned, r.isURLAttachment;
      resolvedURL, cleanedURL, finalURL, resourceContent := r.resolvedURL, r.cleanedURL, r.finalURL, content;
    }

    /** `ReferredByResource`: the resource whose page redirected here. */
    function ReferredByResource(): HarvestedResource?
      reads this
    {
      origResource
    }

    /** `ResourceContent`. */
    function ResourceContent(): HarvestedResourceContent?
      reads this
    {
      resourceContent
    }
  }
}
