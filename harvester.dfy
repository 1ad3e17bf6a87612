/** `ContentHarvester` (harvester.go:34-180): the batch coordinator. It
    resolves every distinct URL text found in a piece of content, swaps in
    the target of an HTML redirect when asked to, and keeps every content
    record it made, in order, in `contentEncountered`. */
module Harvester {
  import opened Wrappers
  import opened Urls
  import opened Rules
  import opened Transport
  import opened Content
  import opened Resource
  import opened Serialization

  /** The seen-set filter of `HarvestResources`: each text once, where it
      first occurs. */
  function Dedup(xs: seq<string>): seq<string>
  {
    if xs == [] then []
    else if xs[|xs| - 1] in xs[..|xs| - 1] then Dedup(xs[..|xs| - 1])
    else Dedup(xs[..|xs| - 1]) + [xs[|xs| - 1]]
  }

  /** Where `x` first occurs in `xs`. */
  function FirstIndex(xs: seq<string>, x: string): (r: nat)
    requires x in xs
    ensures r < |xs| && xs[r] == x && x !in xs[..r]
  {
    if xs[0] == x then 0
    else
      var r := FirstIndex(xs[1..], x);
      assert xs[..r + 1] == [xs[0]] + xs[1..][..r];
      r + 1
  }

  /** `Dedup` keeps exactly the texts of its input. */
  lemma {:induction false} DedupSameElements(xs: seq<string>)
    ensures forall x :: x in Dedup(xs) <==> x in xs
  {
    if xs != [] {
      var init := xs[..|xs| - 1];
      DedupSameElements(init);
      assert xs == init + [xs[|xs| - 1]];
    }
  }

  /** `Dedup` lists no text twice. */
  lemma {:induction false} DedupDistinct(xs: seq<string>)
    ensures forall i, j :: 0 <= i < j < |Dedup(xs)| ==> Dedup(xs)[i] != Dedup(xs)[j]
  {
    if xs != [] {
      var init := xs[..|xs| - 1];
      DedupDistinct(init);
      DedupSameElements(init);
    }
  }

  lemma FirstIndexInit(xs: seq<string>, y: string)
    requires xs != [] && y in xs[..|xs| - 1]
    ensures FirstIndex(xs, y) == FirstIndex(xs[..|xs| - 1], y)
  {
    var b := FirstIndex(xs[..|xs| - 1], y);
    assert xs[b] == y && xs[..b] == xs[..|xs| - 1][..b];
  }

  lemma FirstIndexLast(xs: seq<string>)
    requires xs != [] && xs[|xs| - 1] !in xs[..|xs| - 1]
    ensures FirstIndex(xs, xs[|xs| - 1]) == |xs| - 1
  {
  }

  /** `Dedup` keeps the order in which the texts first occur. */
  lemma {:induction false} DedupFirstOccurrenceOrder(xs: seq<string>)
    ensures forall x :: x in Dedup(xs) ==> x in xs
    ensures forall i, j :: 0 <= i < j < |Dedup(xs)| ==> FirstIndex(xs, Dedup(xs)[i]) < FirstIndex(xs, Dedup(xs)[j])
  {
    DedupSameElements(xs);
    if xs != [] {
      var init := xs[..|xs| - 1];
      DedupFirstOccurrenceOrder(init);
      DedupSameElements(init);
      var d := Dedup(init);
      forall i, j | 0 <= i < j < |Dedup(xs)|
        ensures FirstIndex(xs, Dedup(xs)[i]) < FirstIndex(xs, Dedup(xs)[j])
      {
        assert Dedup(xs)[i] == d[i] && d[i] in d;
        FirstIndexInit(xs, d[i]);
        if j < |d| {
          assert Dedup(xs)[j] == d[j] && d[j] in d;
          FirstIndexInit(xs, d[j]);
        } else {
          FirstIndexLast(xs);
        }
      }
    }
  }

  /** The texts of `xs` that are not in `seen`, each once, in the order in
      which they first occur: what the loop of `HarvestResources` still has
      to visit when it has already seen `seen`. */
  function Unseen(seen: set<string>, xs: seq<string>): seq<string>
    decreases |xs|
  {
    if xs == [] then []
    else if xs[0] in seen then Unseen(seen, xs[1..])
    else [xs[0]] + Unseen(seen + {xs[0]}, xs[1..])
  }

  function Elements(xs: seq<string>): set<string>
  {
    set x | x in xs
  }

  lemma ElementsSnoc(p: seq<string>, y: string)
    ensures Elements(p + [y]) == Elements(p) + {y}
  {
  }

  lemma DedupSnoc(p: seq<string>, y: string)
    ensures Dedup(p + [y]) == if y in p then Dedup(p) else Dedup(p) + [y]
  {
    assert (p + [y])[..|p|] == p;
  }

  /** The seen-set scan from the start is `Dedup`, and at every point the
      texts visited so far followed by those still unseen make up `Dedup`. */
  lemma {:induction false} DedupUnseen(p: seq<string>, q: seq<string>)
    ensures Dedup(p + q) == Dedup(p) + Unseen(Elements(p), q)
    decreases |q|
  {
    if q == [] {
      assert p + q == p;
    } else {
      var y, q' := q[0], q[1..];
      assert p + q == (p + [y]) + q';
      DedupUnseen(p + [y], q');
      DedupSnoc(p, y);
      ElementsSnoc(p, y);
      if y in p {
        assert Elements(p) + {y} == Elements(p);
      } else {
        AppendAssoc(Dedup(p), [y], Unseen(Elements(p) + {y}, q'));
      }
    }
  }

  lemma DedupIsUnseen(xs: seq<string>)
    ensures Dedup(xs) == Unseen({}, xs)
  {
    DedupUnseen([], xs);
    assert [] + xs == xs;
    assert Elements([]) == {};
  }

  /** One step of the scan at position `i`, with the seen-set kept as the
      keys of a map, as `HarvestResources` keeps it. */
  lemma UnseenStep(seen: map<string, bool>, xs: seq<string>, i: nat)
    requires i < |xs|
    ensures Unseen(seen.Keys, xs[i..]) ==
      if xs[i] in seen then Unseen(seen.Keys, xs[i + 1..]) else [xs[i]] + Unseen(seen[xs[i] := true].Keys, xs[i + 1..])
  {
    assert xs[i..][1..] == xs[i + 1..];
    assert seen[xs[i] := true].Keys == seen.Keys + {xs[i]};
  }

  /** One pass of the loop keeps "visited, then still unseen, is `Dedup`". */
  lemma VisitStep(done: seq<string>, seen: map<string, bool>, xs: seq<string>, i: nat, whole: seq<string>)
    requires i < |xs|
    requires done + Unseen(seen.Keys, xs[i..]) == whole
    ensures xs[i] in seen ==> done + Unseen(seen.Keys, xs[i + 1..]) == whole
    ensures xs[i] !in seen ==> (done + [xs[i]]) + Unseen(seen[xs[i] := true].Keys, xs[i + 1..]) == whole
  {
    UnseenStep(seen, xs, i);
    if xs[i] !in seen {
      AppendAssoc(done, [xs[i]], Unseen(seen[xs[i] := true].Keys, xs[i + 1..]));
    }
  }

  lemma AppendAssoc<T>(a: seq<T>, b: seq<T>, c: seq<T>)
    ensures a + (b + c) == (a + b) + c
  {
  }

  lemma AppendEmpty<T>(a: seq<T>)
    ensures a + [] == a
  {
  }

  /** What the harvester makes of each URL text, one `harvestResource`
      call per text. The batch-level definitions below are stated for any
      such function; `Resolution` is the one the harvester uses. */
  type Resolver = string -> ResourceView

  /** The resolution of every text under the given rules and environment. */
  function Resolution(ignore: IgnoreRule, clean: CleanRule, env: Environment): Resolver
  {
    t => Resolve(ignore, clean, t, env.fetch(t), env.now)
  }

  /** `resolve` agrees with `harvestResource` on every text. */
  ghost predicate Resolves(resolve: Resolver, ignore: IgnoreRule, clean: CleanRule, env: Environment)
  {
    forall t {:trigger env.fetch(t)} :: resolve(t) == Resolve(ignore, clean, t, env.fetch(t), env.now)
  }

  lemma ResolutionResolves(ignore: IgnoreRule, clean: CleanRule, env: Environment)
    ensures Resolves(Resolution(ignore, clean, env), ignore, clean, env)
  {
  }

  /** The resource `harvestResourceFromReferrer` makes for the target of
      the original's HTML redirect, when it has one. */
  function Referred(resolve: Resolver, original: ResourceView): Option<ResourceView>
  {
    var redirect := original.IsHTMLRedirect();
    if redirect.0 then Some(resolve(redirect.1)) else None
  }

  /** A resource leads to a referred one exactly when its content reports
      an HTML redirect (no content, no redirect), and the referred one is
      the resolution of exactly the captured target text, whatever became of
      it. */
  lemma ReferredResolvesTarget(resolve: Resolver, ignore: IgnoreRule, clean: CleanRule, env: Environment, original: ResourceView)
    requires Resolves(resolve, ignore, clean, env)
    ensures Referred(resolve, original).Some? <==> original.IsHTMLRedirect().0
    ensures original.resourceContent.None? ==> Referred(resolve, original).None?
    ensures Referred(resolve, original).Some? ==>
      var t := original.IsHTMLRedirect().1;
      Referred(resolve, original).value == Resolve(ignore, clean, t, env.fetch(t), env.now)
      && Referred(resolve, original).value.origURLtext == t
  {
    var t := original.IsHTMLRedirect().1;
    assert resolve(t) == Resolve(ignore, clean, t, env.fetch(t), env.now);
    ResolveRecords(ignore, clean, t, env.fetch(t), env.now);
  }

  /** What `HarvestResources` lists for one text, with the referrer that
      record remembers. */
  datatype Listing = Listing(entry: ResourceView, referrer: Option<ResourceView>)

  /** The listing for a text: the redirect target, remembering the
      original, when there is a redirect and it is followed; otherwise the
      original, remembering nothing. */
  function ListingFor(follow: bool, resolve: Resolver, text: string): Listing
  {
    var original := resolve(text);
    var referred := Referred(resolve, original);
    if referred.Some? && follow then Listing(referred.value, Some(original)) else Listing(original, None)
  }

  /** The listed record is replaced by its redirect target exactly when
      redirects are followed and the original reports one; the target is
      listed as resolved, its own redirect not followed. */
  lemma ListingSingleHop(follow: bool, resolve: Resolver, text: string)
    ensures var l := ListingFor(follow, resolve, text);
      && (l.referrer.Some? <==> follow && resolve(text).IsHTMLRedirect().0)
      && (l.referrer.None? ==> l.entry == resolve(text))
      && (l.referrer.Some? ==> l.referrer.value == resolve(text) && l.entry == resolve(resolve(text).IsHTMLRedirect().1))
  {
  }

  function Listings(follow: bool, resolve: Resolver, texts: seq<string>): seq<Listing>
  {
    if texts == [] then []
    else Listings(follow, resolve, texts[..|texts| - 1]) + [ListingFor(follow, resolve, texts[|texts| - 1])]
  }

  function ContentOf(r: ResourceView): seq<ContentView>
  {
    if r.resourceContent.Some? then [r.resourceContent.value] else []
  }

  /** The content records made while handling one text: the original's,
      then the redirect target's, whether or not the redirect is followed. */
  function EncounteredFor(resolve: Resolver, text: string): seq<ContentView>
  {
    var original := resolve(text);
    var referred := Referred(resolve, original);
    ContentOf(original) + (if referred.Some? then ContentOf(referred.value) else [])
  }

  function EncounteredAll(resolve: Resolver, texts: seq<string>): seq<ContentView>
  {
    if texts == [] then []
    else EncounteredAll(resolve, texts[..|texts| - 1]) + EncounteredFor(resolve, texts[|texts| - 1])
  }

  /** The bookkeeping of the loop of `HarvestResources`: the texts visited
      so far, their listings, and the content records met with their
      views. */
  datatype Progress = Progress(done: seq<string>, listings: seq<Listing>,
                               met: seq<HarvestedResourceContent>, views: seq<ContentView>)

  ghost predicate Tracks(follow: bool, resolve: Resolver, p: Progress)
  {
    p.listings == Listings(follow, resolve, p.done) && p.views == EncounteredAll(resolve, p.done)
  }

  /** The content record a resource record holds, if any. */
  function ContentRecord(r: HarvestedResource): seq<HarvestedResourceContent>
    reads r
  {
    if r.resourceContent == null then [] else [r.resourceContent]
  }

  /** The content record of a resource record, seen through its view. */
  lemma ContentRecordViews(r: HarvestedResource)
    ensures |ContentRecord(r)| == |ContentOf(r.View())|
    ensures forall k :: 0 <= k < |ContentRecord(r)| ==> ContentRecord(r)[k].View() == ContentOf(r.View())[k]
  {
  }

  lemma ViewsAppend(a: seq<HarvestedResourceContent>, b: seq<HarvestedResourceContent>, x: seq<ContentView>, y: seq<ContentView>)
    requires |a| == |x| && forall k :: 0 <= k < |a| ==> a[k].View() == x[k]
    requires |b| == |y| && forall k :: 0 <= k < |b| ==> b[k].View() == y[k]
    ensures |a + b| == |x + y| && forall k :: 0 <= k < |a + b| ==> (a + b)[k].View() == (x + y)[k]
  {
  }

  /** A record as `HarvestResources` lists it. */
  function ListingOf(r: HarvestedResource): Listing
    reads r, r.resourceContent, r.origResource
    reads if r.origResource == null then {} else {r.origResource.resourceContent}
  {
    Listing(r.View(), if r.origResource == null then None else Some(r.origResource.View()))
  }

  lemma ListingsStep(follow: bool, resolve: Resolver, d: seq<string>, x: string)
    ensures Listings(follow, resolve, d + [x]) == Listings(follow, resolve, d) + [ListingFor(follow, resolve, x)]
  {
    assert (d + [x])[..|d|] == d;
  }

  lemma EncounteredStep(resolve: Resolver, d: seq<string>, x: string)
    ensures EncounteredAll(resolve, d + [x]) == EncounteredAll(resolve, d) + EncounteredFor(resolve, x)
  {
    assert (d + [x])[..|d|] == d;
  }

  /** Entry `j` of the listings is the listing for text `j`. */
  lemma {:induction false} ListingsAt(follow: bool, resolve: Resolver, texts: seq<string>)
    ensures |Listings(follow, resolve, texts)| == |texts|
    ensures forall j :: 0 <= j < |texts| ==> Listings(follow, resolve, texts)[j] == ListingFor(follow, resolve, texts[j])
  {
    if texts != [] {
      ListingsAt(follow, resolve, texts[..|texts| - 1]);
    }
  }

  class ContentHarvester {
    const ignoreResourceRule: IgnoreRule
    const cleanResourceRule: CleanRule
    const followHTMLRedirects: bool
    var contentEncountered: seq<HarvestedResourceContent>

    /** `MakeContentHarvester`. */
    constructor (ignoreResourceRule: IgnoreRule, cleanResourceRule: CleanRule, followHTMLRedirects: bool)
      ensures this.ignoreResourceRule == ignoreResourceRule
      ensures this.cleanResourceRule == cleanResourceRule
      ensures this.followHTMLRedirects == followHTMLRedirects
      ensures contentEncountered == []
    {
      this.ignoreResourceRule := ignoreResourceRule;
      this.cleanResourceRule := cleanResourceRule;
      this.followHTMLRedirects := followHTMLRedirects;
      contentEncountered := [];
    }

    /** `detectResourceContent`: the detected record, appended to the
        records seen so far. */
    method DetectResourceContent(u: Url, resp: Response) returns (c: HarvestedResourceContent)
      modifies this`contentEncountered
      ensures fresh(c) && c.View() == Detected(u, resp)
      ensures contentEncountered == old(contentEncountered) + [c]
    {
      c := HarvestedResourceContent.DetectHarvestedResourceContent(u, resp);
      contentEncountered := contentEncountered + [c];
    }

    /** `harvestResource`: the record is filled in the order the source
        fills it, and the object holding it is made once it is complete. */
    method HarvestResource(text: string, env: Environment) returns (res: HarvestedResource)
      modifies this`contentEncountered
      ensures fresh(res) && (res.resourceContent == null || fresh(res.resourceContent))
      ensures res.origResource == null
      ensures res.View() == Resolve(ignoreResourceRule, cleanResourceRule, text, env.fetch(text), env.now)
      ensures contentEncountered == old(contentEncountered) + ContentRecord(res)
    {
      var r := Started(text, env.now);
      var fetch := env.fetch(text);
      r := r.(isURLValid := fetch.Responded?);
      if !r.isURLValid {
        r := r.(isDestValid := false, isURLIgnored := true, ignoreReason := InvalidURLReason(text));
        res := new HarvestedResource(r, null);
        return;
      }
      var resp := fetch.resp;
      r := r.(httpStatusCode := resp.statusCode);
      if r.httpStatusCode != 200 {
        r := r.(isDestValid := false, isURLIgnored := true, ignoreReason := InvalidStatusReason(resp.statusCode));
        res := new HarvestedResource(r, null);
        return;
      }
      r := r.(resolvedURL := Some(resp.requestURL));
      r := r.(finalURL := r.resolvedURL);
      var ignored := ignoreResourceRule.IgnoreDiscoveredResource(resp.requestURL);
      if ignored.0 {
        r := r.(isDestValid := true, isURLIgnored := true, ignoreReason := ignored.1);
        res := new HarvestedResource(r, null);
        return;
      }
      r := r.(isURLIgnored := false, isDestValid := true);
      var urlsParamsCleaned, cleanedURL := CleanResource(resp.requestURL, cleanResourceRule);
      if urlsParamsCleaned {
        r := r.(cleanedURL := cleanedURL, finalURL := cleanedURL, isURLCleaned := true);
      } else {
        r := r.(isURLCleaned := false);
      }
      var content := DetectResourceContent(r.finalURL.value, resp);
      r := r.(resourceContent := Some(content.View()));
      res := new HarvestedResource(r, content);
    }
    /** `harvestResourceFromReferrer`: nothing unless the original's content
        is an HTML redirect; otherwise the resolution of its target, which
        remembers the original as its referrer. */
    method HarvestResourceFromReferrer(original: HarvestedResource, env: Environment, ghost resolve: Resolver)
      returns (res: HarvestedResource?)
      requires Resolves(resolve, ignoreResourceRule, cleanResourceRule, env)
      modifies this`contentEncountered
      ensures res == null <==> !original.View().IsHTMLRedirect().0
      ensures res == null ==> contentEncountered == old(contentEncountered)
      ensures res != null ==> fresh(res) && (res.resourceContent == null || fresh(res.resourceContent))
      ensures res != null ==> res.origResource == original
      ensures res != null ==> Some(res.View()) == Referred(resolve, original.View())
      ensures res != null ==>
        contentEncountered == old(contentEncountered) + ContentRecord(res)
    {
      var redirect := original.View().IsHTMLRedirect();
      if !redirect.0 {
        return null;
      }
      var r := HarvestResource(redirect.1, env);
      r.origResource := original;
      res := r;
    }

    /** One text of `HarvestResources` (harvester.go:168-176): the record
        it lists, and the content records made on the way. The records
        made before, `kept` and `keptContent`, are left as they were. */
    method HarvestEntry(text: string, env: Environment, ghost resolve: Resolver,
                        ghost kept: seq<HarvestedResource>, ghost keptContent: seq<HarvestedResourceContent>)
      returns (res: HarvestedResource, ghost made: seq<HarvestedResourceContent>)
      requires Resolves(resolve, ignoreResourceRule, cleanResourceRule, env)
      modifies this`contentEncountered
      ensures fresh(res)
      ensures forall j :: 0 <= j < |kept| ==> ListingOf(kept[j]) == old(ListingOf(kept[j]))
      ensures forall k :: 0 <= k < |keptContent| ==> keptContent[k].View() == old(keptContent[k].View())
      ensures ListingOf(res) == ListingFor(followHTMLRedirects, resolve, text)
      ensures contentEncountered == old(contentEncountered) + made
      ensures var e := EncounteredFor(resolve, text);
        |made| == |e| && forall k :: 0 <= k < |made| ==> made[k].View() == e[k]
    {
      var original := HarvestResource(text, env);
      var referredTo := HarvestResourceFromReferrer(original, env, resolve);
      ContentRecordViews(original);
      made := ContentRecord(original);
      if referredTo != null {
        ContentRecordViews(referredTo);
        ViewsAppend(made, ContentRecord(referredTo), ContentOf(original.View()), ContentOf(referredTo.View()));
        made := made + ContentRecord(referredTo);
      } else {
        assert made + [] == made;
      }
      res := original;
      if referredTo != null && followHTMLRedirects {
        res := referredTo;
      }
    }

    /** Harvests one text not met before (harvester.go:167-177) and records
        it in the progress. */
    method HarvestFresh(urlText: string, env: Environment, ghost resolve: Resolver,
                        resources: seq<HarvestedResource>, ghost p: Progress, ghost start: seq<HarvestedResourceContent>)
      returns (resources': seq<HarvestedResource>, ghost p': Progress)
      requires Resolves(resolve, ignoreResourceRule, cleanResourceRule, env)
      requires Tracks(followHTMLRedirects, resolve, p)
      requires |resources| == |p.listings| && forall j :: 0 <= j < |resources| ==> ListingOf(resources[j]) == p.listings[j]
      requires contentEncountered == start + p.met
      requires |p.met| == |p.views| && forall k :: 0 <= k < |p.met| ==> p.met[k].View() == p.views[k]
      modifies this`contentEncountered
      ensures p'.done == p.done + [urlText]
      ensures Tracks(followHTMLRedirects, resolve, p')
      ensures |resources'| == |p'.listings| && forall j :: 0 <= j < |resources'| ==> ListingOf(resources'[j]) == p'.listings[j]
      ensures contentEncountered == start + p'.met
      ensures |p'.met| == |p'.views| && forall k :: 0 <= k < |p'.met| ==> p'.met[k].View() == p'.views[k]
    {
      ListingsStep(followHTMLRedirects, resolve, p.done, urlText);
      EncounteredStep(resolve, p.done, urlText);
      var res, m := HarvestEntry(urlText, env, resolve, resources, p.met);
      AppendAssoc(start, p.met, m);
      p' := Progress(p.done + [urlText], p.listings + [ListingFor(followHTMLRedirects, resolve, urlText)],
                     p.met + m, p.views + EncounteredFor(resolve, urlText));
      resources' := resources + [res];
    }

    /** One pass of the loop of `HarvestResources` (harvester.go:162-178),
        at text `i`: a text already seen is skipped; any other is harvested,
        its record appended and the text marked as seen. `p` is the
        bookkeeping of the passes so far, `start` the content records met
        before the batch began. */
    method HarvestNext(urls: seq<string>, i: nat, env: Environment, ghost resolve: Resolver,
                       seenUrls: map<string, bool>, resources: seq<HarvestedResource>,
                       ghost p: Progress, ghost start: seq<HarvestedResourceContent>)
      returns (seenUrls': map<string, bool>, resources': seq<HarvestedResource>, ghost p': Progress)
      requires i < |urls|
      requires Resolves(resolve, ignoreResourceRule, cleanResourceRule, env)
      requires p.done + Unseen(seenUrls.Keys, urls[i..]) == Dedup(urls)
      requires Tracks(followHTMLRedirects, resolve, p)
      requires |resources| == |p.listings| && forall j :: 0 <= j < |resources| ==> ListingOf(resources[j]) == p.listings[j]
      requires contentEncountered == start + p.met
      requires |p.met| == |p.views| && forall k :: 0 <= k < |p.met| ==> p.met[k].View() == p.views[k]
      modifies this`contentEncountered
      ensures p'.done + Unseen(seenUrls'.Keys, urls[i + 1..]) == Dedup(urls)
      ensures Tracks(followHTMLRedirects, resolve, p')
      ensures |resources'| == |p'.listings| && forall j :: 0 <= j < |resources'| ==> ListingOf(resources'[j]) == p'.listings[j]
      ensures contentEncountered == start + p'.met
      ensures |p'.met| == |p'.views| && forall k :: 0 <= k < |p'.met| ==> p'.met[k].View() == p'.views[k]
    {
      var urlText := urls[i];
      VisitStep(p.done, seenUrls, urls, i, Dedup(urls));
      if urlText in seenUrls {
        return seenUrls, resources, p;
      }
      resources', p' := HarvestFresh(urlText, env, resolve, resources, p, start);
      seenUrls' := seenUrls[urlText := true];
    }

    /** `HarvestResources`: every distinct text the environment discovers in
        `content`, in the order of first occurrence, resolved once; the
        content records made on the way are appended to those seen.
        `resolve` names what `harvestResource` makes of each text (see
        `ResolutionResolves`). */
    method HarvestResources(content: string, env: Environment, ghost resolve: Resolver)
      returns (result: HarvestedResources, ghost made: seq<HarvestedResourceContent>)
      requires Resolves(resolve, ignoreResourceRule, cleanResourceRule, env)
      modifies this`contentEncountered
      ensures result.content == content
      ensures var ls := Listings(followHTMLRedirects, resolve, Dedup(env.discover(content)));
        |result.resources| == |ls| && forall j :: 0 <= j < |ls| ==> ListingOf(result.resources[j]) == ls[j]
      ensures contentEncountered == old(contentEncountered) + made
      ensures var e := EncounteredAll(resolve, Dedup(env.discover(content)));
        |made| == |e| && forall k :: 0 <= k < |made| ==> made[k].View() == e[k]
    {
      var seenUrls: map<string, bool> := map[];
      var resources: seq<HarvestedResource> := [];
      var urls := env.discover(content);
      ghost var p := Progress([], [], [], []);
      DedupIsUnseen(urls);
      assert urls[0..] == urls && seenUrls.Keys == {};
      AppendEmpty(contentEncountered);
      for i := 0 to |urls|
        invariant p.done + Unseen(seenUrls.Keys, urls[i..]) == Dedup(urls)
        invariant Tracks(followHTMLRedirects, resolve, p)
        invariant |resources| == |p.listings| && forall j :: 0 <= j < |resources| ==> ListingOf(resources[j]) == p.listings[j]
        invariant contentEncountered == old(contentEncountered) + p.met
        invariant |p.met| == |p.views| && forall k :: 0 <= k < |p.met| ==> p.met[k].View() == p.views[k]
      {
        seenUrls, resources, p := HarvestNext(urls, i, env, resolve, seenUrls, resources, p, old(contentEncountered));
      }
      assert urls[|urls|..] == [];
      AppendEmpty(p.done);
      made := p.met;
      result := HarvestedResources(content, resources);
    }
  }

  /** What a list of resource records holds. */
  function ResourceViews(rs: seq<HarvestedResource>): (r: seq<ResourceView>)
    reads set i | 0 <= i < |rs| :: rs[i]
    reads set i | 0 <= i < |rs| && rs[i].resourceContent != null :: rs[i].resourceContent
    ensures |r| == |rs| && forall i :: 0 <= i < |rs| ==> r[i] == rs[i].View()
  {
    if rs == [] then [] else ResourceViews(rs[..|rs| - 1]) + [rs[|rs| - 1].View()]
  }

  /** What `HarvestResources` hands back: the content and the records, in
      order. */
  datatype HarvestedResources = HarvestedResources(content: string, resources: seq<HarvestedResource>)
  {
    /** `Serialize` (harvester.go:62-121): the callbacks made, in order,
        and the error returned, as `Plan` gives them for the records' views
        (`PlanHandlers`, `PlanRenders`, `PlanError` and `PlanOrdered` say
        what they are). */
    method Serialize(serializer: Serializer) returns (calls: seq<Call>, err: Option<string>)
      ensures (calls, err) == Plan(serializer, content, ResourceViews(resources))
    {
      ghost var views := ResourceViews(resources);
      calls := [];
      for i := 0 to |resources|
        invariant Plan(serializer, content, views[..i]) == (calls, None)
      {
        PlanSnoc(serializer, content, views, i);
        var hr := resources[i].View();
        assert hr == views[i];
        var made, failed := SerializeRecord(serializer, content, hr, i);
        calls := calls + made;
        if failed.Some? {
          PlanAfterError(serializer, content, views, i + 1);
          assert Plan(serializer, content, views) == (calls, failed);
          assert views == ResourceViews(resources);
          return calls, failed;
        }
      }
      assert views[..|resources|] == views;
      assert views == ResourceViews(resources);
      err := None;
      assert Plan(serializer, content, views) == (calls, err);
    }
  }
}
