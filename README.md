# lectio/harvester: a Dafny model

`harvester` finds the URLs in a piece of text (a tweet, an e-mail) and
resolves each one:

- it fetches the URL, letting HTTP redirects happen;
- it rejects transport failures and statuses other than 200;
- it applies an ignore rule to the URL the response came from;
- it strips unwanted query parameters with a clean rule;
- it classifies what the URL leads to: an HTML page is parsed for its
  `<meta>` tags and its refresh redirect, and anything else is downloaded
  and sniffed.

The batch coordinator, `ContentHarvester.HarvestResources`, does the
following:

- it resolves every distinct URL text once, in the order the texts first
  occur;
- it resolves the target of an HTML (meta refresh) redirect, and lists that
  target instead of the original when configured to follow redirects;
- it keeps every content record it made, in order, in an append-only list.

`HarvestedResources.Serialize` goes through the records in order. It hands
each invalid or ignored record to an optional handler, renders the others,
and stops at the first render error.

## Modules

- **Wrappers** holds `Option` and `Result`.
- **Text** models Go's `strings.EqualFold` against lower-case ASCII
  literals, `strings.TrimSpace` with `unicode.IsSpace`, and `%d` formatting.
- **Urls** holds a parsed URL, whose query is a map.
- **Html** holds the parsed node tree and its document order.
- **Refresh** matches the pattern `^(\d?)\s?;\s?url=(.*)$`, written out by
  hand.
- **MetaData** specifies the walk of `parsePageMetaData` as functions.
- **Download** specifies `DownloadContent` as a function of its I/O outcome,
  including the extension rename.
- **Transport** holds the fetch outcome and the environment: the discovered
  URL texts, the fetch of each text, and the clock.
- **Defaults** covers defaults.go: the first-match rule lists, the default
  clean list and the two hostname helpers.
- **Rules** holds the two rule interfaces.
- **Content** has the content record. It is a value view plus a class that
  `DetectHarvestedResourceContent` and `parsePageMetaData` fill in place;
  the walk is a recursive method over the tree.
- **Resource** has the resource record as a value view and as a class. It
  also holds `Resolve`, which specifies `harvestResource`, and the
  `cleanResource` loop.
- **Serialization** holds the serializer and the callbacks `Serialize` makes.
- **Harvester** has the class `ContentHarvester`, `HarvestedResources`, and
  the seen-set deduplication.

### How the model is organised

Each imperative operation is a method proved against a specification
function, and its properties are lemmas about that function.

- `HarvestResource` is proved against `Resolve`.
- `DetectHarvestedResourceContent` is proved against `Detected`.
- `Visit` is proved against `WalkTree`.
- `CleanResource` is proved against `Cleaned`.
- `Serialize` is proved against `Plan`.
- `HarvestResources` is proved against `Listings` and `EncounteredAll`
  applied to `Dedup` of the discovered texts.

Four behaviours of the code are easy to miss. The model follows the code
in each:

- When a page has more than one matching refresh directive, the last one
  wins. Each match overwrites the previous one (resource.go:174-175).
- The walk over a page never clears its `inHead` flag. So `<meta>` elements
  that come after the end of `<head>` in document order are still read
  (resource.go:157-163).
- The refresh pattern's `\d?` admits at most one delay digit. So
  `10;url=x` is not a redirect (resource.go:142).
- A failed `os.Rename` of a downloaded file is not checked. The new name is
  recorded either way (resource.go:89-90).

## Model

| member | source | states |
|---|---|---|
| Harvester.ContentHarvester.constructor | harvester.go:124-132 | `MakeContentHarvester` keeps exactly the given ignore rule, clean rule and follow flag, and starts with no content encountered |
| Harvester.ContentHarvester.DetectResourceContent | harvester.go:145-149 | the returned record is a new object holding the detected content; `contentEncountered` becomes the old list followed by exactly that record |
| Harvester.ContentHarvester.HarvestResource | resource.go:352-428 | the new record's view is `Resolve` of the text, under the harvester's rules, the fetch of that text and the clock; it has no referrer; the content record it made, if any, is appended to `contentEncountered` |
| Harvester.ContentHarvester.HarvestResourceFromReferrer | resource.go:430-444 | returns nil exactly when the original reports no HTML redirect, and then changes nothing; otherwise returns a new record that resolves the redirect target, has the original as its referrer, and appends its content record |
| Harvester.ContentHarvester.HarvestEntry | harvester.go:168-176 | the listed record is `ListingFor` the text: the redirect target when redirects are followed and there is one, else the original; the content records made are the original's and then the target's, even when the redirect is not followed; earlier records are unchanged |
| Harvester.ContentHarvester.HarvestFresh | harvester.go:167-177 | a text not seen before extends the visited texts, the listings and the content records by one step each, keeping all of them in step with the reference definitions |
| Harvester.ContentHarvester.HarvestNext | harvester.go:162-178 | one pass of the loop: visited texts followed by the texts still unseen always make up the deduplicated input; the listings and content records keep tracking it |
| Harvester.ContentHarvester.HarvestResources | harvester.go:152-180 | the result holds the input content; entry j of the result is the listing for the j-th distinct discovered text, in first-occurrence order; `contentEncountered` grows by exactly the content records of those texts and their redirect targets, in order |
| Harvester.FirstIndex | harvester.go:160-166 | the first position of a text in the discovered list |
| Harvester.DedupSameElements | harvester.go:160-178 | the deduplicated list holds exactly the texts of the input |
| Harvester.DedupDistinct | harvester.go:163-166 | no text is listed twice |
| Harvester.DedupFirstOccurrenceOrder | harvester.go:162-178 | texts are listed in the order of their first occurrence in the input |
| Harvester.DedupUnseen | harvester.go:162-178 | deduplicating `p + q` gives `Dedup(p)` followed by the texts of `q` not already in `p`, each once |
| Harvester.DedupIsUnseen | harvester.go:160-162 | a scan that starts with an empty seen map produces `Dedup` |
| Harvester.UnseenStep | harvester.go:163-177 | a text found in the seen map is skipped; any other text is taken and added to the map |
| Harvester.VisitStep | harvester.go:163-177 | one pass keeps "visited, then still unseen, is `Dedup`" on both branches |
| Harvester.ResolutionResolves | resource.go:352-428 | the harvester's own resolution function agrees with `harvestResource` on every text |
| Harvester.ReferredResolvesTarget | resource.go:300-307 | a record leads to a referred one exactly when its content reports an HTML redirect; a record without content never does; the referred record is the resolution of exactly the captured target text |
| Harvester.ListingSingleHop | harvester.go:170-176 | the listed record is replaced by the redirect target exactly when redirects are followed and the original reports a redirect; the target's own redirect is not followed |
| Harvester.ListingsAt | harvester.go:176 | the listings have one entry per text, and entry j is the listing of text j |
| Harvester.ResourceViews | harvester.go:47 | the views of a list of resource records, pointwise |
| Harvester.HarvestedResources.Serialize | harvester.go:62-121 | the callbacks made, in order, and the error returned are exactly `Plan` of the records' views |
| Serialization.SerializeRecord | harvester.go:63-117 | for one record: the handler of the first failing test (invalid URL, then invalid destination, then ignored), only when it is set; otherwise a render, which fails with the template's error before the execution's |
| Serialization.FirstFailure | harvester.go:86-117 | the first record whose render fails: it is rendered and its render fails, and every record before it that is rendered renders without error |
| Serialization.PlanAfterError | harvester.go:88-90 | once a render has failed, later records change neither the callbacks nor the error |
| Serialization.PlanError | harvester.go:86-120 | the error returned is that of the first failing render, and nil when there is none |
| Serialization.PlanSucceeds | harvester.go:115-120 | nil is returned exactly when every record that is rendered renders without error |
| Serialization.PlanHandlers | harvester.go:63-85 | each handler is called for record i exactly when i is at or before the first failure, the record fails that handler's test and passes the earlier tests, and the handler is set |
| Serialization.PlanRenders | harvester.go:78-92 | record i is rendered exactly when it is at or before the first failure and is valid, has a valid destination and is not ignored |
| Serialization.PlanOrdered | harvester.go:63 | callbacks come in record order, at most one per record, and every index names a record |
| Resource.Kept | resource.go:331-343 | the query without the names the rule removes: kept names keep their values, no removed name survives, and every other name stays |
| Resource.Cleaned | resource.go:319-349 | nothing, exactly when the rule declines the URL or no parameter name is one it removes; otherwise the same URL with exactly those parameters taken out |
| Resource.CleanResource | resource.go:315-350 | the loop over the parameter names, in any order, returns `Cleaned`; "cleaned" holds exactly when a URL is returned |
| Resource.CleanedIsClean | resource.go:337-347 | cleaning a cleaned URL again finds nothing to remove |
| Resource.CleanedAllRemoved | resource.go:337-347 | when the rule removes every parameter, the cleaned query is empty |
| Resource.ResolveRecords | resource.go:357-379 | the record keeps the text and the time; `isURLValid` holds exactly when the GET returned; the status code is kept when it did |
| Resource.ResolveTransportError | resource.go:363-377 | a failed GET gives an invalid, ignored record with the reason "Invalid URL '<text>'", no URLs, no content and no cleaning |
| Resource.ResolveBadStatus | resource.go:379-392 | a status other than 200 gives a valid URL with an invalid destination, ignored, with the reason "Invalid HTTP Status Code <code>", no URLs and no content |
| Resource.ResolveIgnored | resource.go:394-407 | the ignore rule is asked about the URL the response came from; when it fires, the destination is valid, the record is ignored with the rule's reason, the final URL is the resolved one, and there is no cleaning and no content |
| Resource.ResolveAccepted | resource.go:409-420 | otherwise the record is not ignored and its destination is valid; the cleaned URL is `Cleaned` of the resolved URL; the final URL is the cleaned one when cleaning removed something, else the resolved one; the content is detected against the final URL |
| Resource.ResolveConsistent | resource.go:357-420 | every resolved record keeps the relations between its validity, ignore and cleaning flags, its three URLs and its content |
| Resource.ResolveIgnoresText | resource.go:379-420 | once the GET has returned, the text plays no further part in the record |
| Resource.HarvestedResource.constructor | resource.go:357-427 | the record holds exactly the given fields and content, with no referrer |
| Content.ContentView.MetaTag | resource.go:222-231 | a lookup in the meta tags: the value and true, or "" and false |
| Content.ContentView.GetOpenGraphMetaTag | resource.go:222-225 | finds a value exactly when `og:<key>` is a tag, and returns that tag's value |
| Content.ContentView.GetTwitterMetaTag | resource.go:228-231 | finds a value exactly when `twitter:<key>` is a tag, and returns that tag's value |
| Content.Detected | resource.go:112-138 | an empty Content-Type means a download; a media-type error means neither download nor metadata parse; `text/html` means a metadata parse and no download; anything else means a download of the body |
| Content.DetectedValidity | resource.go:199-214 | the content is invalid exactly when the media type does not parse, or the content was downloaded and the download or its recognition failed; an HTML parse error does not make it invalid |
| Content.DetectedPageTags | resource.go:128-130 | on an HTML page, the tags and the redirect are what the node-by-node scan of the document in document order collects, starting from nothing |
| Content.HarvestedResourceContent.constructor | resource.go:113-115 | a fresh record with its URL and an empty tag map |
| Content.HarvestedResourceContent.DetectHarvestedResourceContent | resource.go:112-138 | the record filled step by step, with its early returns, is `Detected` |
| Content.HarvestedResourceContent.ParsePageMetaData | resource.go:144-196 | a parse error is stored and returned; otherwise the walk's result is stored and nil is returned |
| Content.HarvestedResourceContent.Visit | resource.go:159-193 | the recursive closure over a node and its children computes `WalkTree`, and hands back the `inHead` flag as it leaves it |
| Content.HarvestedResourceContent.VisitOwn | resource.go:160-163 | the work at one node: a `<head>` element sets the flag, and a `<meta>` element met while it is set has its attributes scanned |
| Content.HarvestedResourceContent.ScanMetaAttributes | resource.go:164-188 | the loop over a `<meta>` element's attributes computes `AttrsOver` |
| Content.HarvestedResourceContent.ScanRefresh | resource.go:166-178 | the inner loop for a refresh directive computes `RefreshOver` |
| Content.HarvestedResourceContent.ScanContent | resource.go:182-186 | the inner loop for a property or name attribute computes `TagOver` |
| MetaData.LastContent | resource.go:182-186 | the value of a `content` attribute with no `content` attribute after it, or none exactly when there is no `content` attribute |
| MetaData.LastTarget | resource.go:166-176 | the target of a matching `content` attribute with no matching one after it, or none exactly when none matches |
| MetaData.NamedKeys | resource.go:180-181 | exactly the values of the `property` and `name` attributes |
| MetaData.SetAll | resource.go:184 | a map in which the given keys are set to one value and every other key is unchanged |
| MetaData.RefreshOverLast | resource.go:166-178 | the refresh loop leaves the last matching target, and marks the page a redirect when there is one; a later match overwrites an earlier one |
| MetaData.TagOverLast | resource.go:182-186 | the tag loop for one name leaves the value of the last `content` attribute under that name |
| MetaData.AttrStepEffect | resource.go:164-187 | one attribute of the outer loop, in closed form |
| MetaData.AttrsOverKeepsFlag | resource.go:163-188 | scanning a `<meta>` element leaves the `inHead` flag alone |
| MetaData.AttrsOverTags | resource.go:180-186 | after a `<meta>` element, every property or name value maps to the element's last `content` value when it has one; the other tags are unchanged |
| MetaData.AttrsOverRefresh | resource.go:165-176 | after a `<meta>` element, the page is a redirect to the element's last matching target exactly when some `http-equiv` attribute says `refresh` and some `content` attribute matches; otherwise the redirect fields are unchanged |
| MetaData.ScanNodesAppend | resource.go:190-192 | scanning two lists one after the other is scanning their concatenation |
| MetaData.WalkTreeScans | resource.go:159-194 | the recursive walk visits the nodes in document order |
| MetaData.WalkForestScans | resource.go:190-192 | the walk over sibling trees visits their nodes in document order |
| MetaData.NoHeadNoEffect | resource.go:157-163 | nothing is collected before the first `<head>` element |
| MetaData.ScanKeepsFlags | resource.go:157-175 | once set, the `inHead` flag is never cleared, and a page found to be a redirect stays one |
| MetaData.ScanFromFirstHead | resource.go:157-163 | scanning a page is scanning it from its first `<head>` element on, and that element sets the flag |
| Refresh.DigitLength | resource.go:142 | the greedy `\d?` takes one character exactly when the text starts with an ASCII digit |
| Refresh.SpaceLength | resource.go:142 | the greedy `\s?` takes one character exactly when the text starts with RE2 white space |
| Refresh.MatchTarget | resource.go:142 | the tail `\s?url=(.*)$`: it splits the text into the optional white space, `url=` and a target containing no newline |
| Refresh.MatchRefresh | resource.go:142 | a match spells the text exactly |
| Refresh.MatchWellFormed | resource.go:142 | a match is a splitting the pattern admits: at most one digit, at most one white space on each side of `;`, and a target with no newline |
| Refresh.MatchSpelled | resource.go:142 | every splitting the pattern admits is found again, so the matcher succeeds exactly on the texts the pattern matches and recovers their delay and target |
| Refresh.MatchesPlainDirective | resource.go:142 | `5; url=/next?a=b` matches with the delay `5` and the target kept exactly as written |
| Refresh.RejectsTwoDigits | resource.go:142 | `10;url=x` does not match |
| Refresh.RejectsUpperCaseUrl | resource.go:142 | `0;URL=x` does not match: `url=` is case-sensitive |
| Text.TrimLeft | resource.go:165-168 | removes only leading white space, and all of it |
| Text.TrimRight | resource.go:165-168 | removes only trailing white space, and all of it |
| Text.TrimSpace | resource.go:165-168 | a contiguous slice of the input that neither starts nor ends with white space, with only white space before and after it |
| Text.Digits | resource.go:383 | the decimal digits of a natural number, with no leading zero |
| Text.DecimalString | resource.go:383 | the `%d` spelling of an integer is never empty (`DecimalRoundTrip` reads the number back from it) |
| Text.DecimalRoundTrip | resource.go:383 | the status code can be read back from the reason text: its `%d` spelling loses nothing |
| Download.Ext | resource.go:87 | `path.Ext`: a suffix of the path that starts at a dot and holds no other dot and no slash; empty only when the final path element has no dot |
| Download.ExtOfDotted | resource.go:86-88 | a dot followed by a plain extension is the extension of any path it ends |
| Download.RenameSetsExtension | resource.go:86-88 | after the rename, the path has the sniffed extension and keeps everything before the old extension |
| Download.RenameIdempotent | resource.go:86-88 | renaming twice to the same extension is renaming once |
| Download.DownloadContent | resource.go:41-95 | the first failing step puts its error in the download error (filling the file, or creating it as lines 48-55 would record it) or the file-type error (reopening or sniffing); the path is the temporary file's, and only a successful sniff renames it to the sniffed extension |
| Defaults.FirstMatch | defaults.go:17-40 | the first pattern in list order that matches, or none exactly when no pattern matches |
| Defaults.IgnoreURLsRegExList.IgnoreDiscoveredResource | defaults.go:17-25 | ignores exactly when some pattern matches; the reason is "Matched Ignore Rule `<p>`" for the first matching pattern, and "" otherwise |
| Defaults.RemoveParamsFromURLsRegExList.RemoveQueryParamFromResource | defaults.go:32-40 | removes exactly when some pattern matches the name; the reason is "Matched cleaner rule `<p>`" for the first matching pattern, and "" otherwise |
| Defaults.DefaultCleanRemovesUtm | defaults.go:13 | the default clean list removes exactly the names that start with `utm_`, naming `^utm_` as the rule |
| Defaults.EmptyListsDoNothing | defaults.go:17-40 | an empty ignore list never ignores, and an empty clean list never removes |
| Defaults.StripWebPrefix | defaults.go:14 | the host changes exactly when it starts with `www` followed by one more character that is not a newline, and then exactly those four characters are dropped |
| Defaults.WebPrefixStrippedOnce | defaults.go:43-45 | the prefix is dropped once only (`wwwwwww.example` becomes `www.example`), and `www` followed by a newline is kept |
| Defaults.LastDot | defaults.go:15 | the position of the last dot, or none exactly when there is no dot |
| Defaults.StripLastLabel | defaults.go:48-51 | the text is unchanged exactly when it has no dot or ends with one; otherwise the last dot and everything after it are removed |
| Defaults.WebPrefixExamples | defaults.go:43-45 | `www.netspective.com` becomes `netspective.com`; `news.healthcareguys.com` is unchanged |
| Defaults.LastLabelExampleShort | defaults.go:48-51 | `netspective.com` becomes `netspective` |
| Defaults.LastLabelExampleLong | defaults.go:48-51 | `news.healthcareguys.com` becomes `news.healthcareguys` |
| Defaults.SimplifiedHostnameExamples | resource_test.go:102-109 | the simplified hostnames of the two test hosts, with and without their top-level domain |
| Resource.Resolve | resource.go:352-428 | what `harvestResource` leaves in the record: the three early exits in source order, then `Accepted`; its properties are the `Resolve*` lemmas |
| Resource.Accepted | resource.go:409-420 | cleaning of the resolved URL, the final URL, and content detection against the final URL |
| Defaults.GetSimplifiedHostname | defaults.go:43-45 | the host with `^www.` removed; `StripWebPrefix` states when and what |
| Defaults.GetSimplifiedHostnameWithoutTLD | defaults.go:48-51 | the simplified host with its last dot-label removed; `StripLastLabel` states when and what |
| Defaults.RemoveParamsFromURLsRegExList.CleanDiscoveredResource | defaults.go:27-30 | every URL is offered for cleaning |
| Rules.CleanRule.CleanDiscoveredResource | harvester.go:29-32 | the rule's gate: the list's answer (always yes), or the one a custom rule gives |
| Rules.IgnoreRule.IgnoreDiscoveredResource | harvester.go:24-26 | the list's first-match answer, or the one a custom rule gives |
| Rules.CleanRule.RemoveQueryParamFromResource | harvester.go:29-32 | the list's first-match answer for a parameter name, or the one a custom rule gives |
| Content.ContentView.IsValid | resource.go:199-214 | no media-type error and, when downloaded, neither a download error nor a file-type error; `DetectedValidity` states it for detected content |
| Content.ContentView.IsHTML | resource.go:217-219 | the media type is exactly `text/html` |
| Content.ContentView.WasDownloaded | resource.go:234-236 | the content holds a download |
| Content.ContentView.IsHTMLRedirect | resource.go:240-242 | the redirect flag and the captured target |
| Resource.ResourceView.IsHTMLRedirect | resource.go:300-307 | the content's redirect, and no redirect when there is no content |
| Harvester.Dedup | harvester.go:160-178 | the seen-set filter; `DedupSameElements`, `DedupDistinct` and `DedupFirstOccurrenceOrder` state what it keeps |
| Harvester.Referred | resource.go:430-444 | the resolution of the redirect target, exactly when there is a redirect |
| Harvester.ListingFor | harvester.go:168-176 | the record listed for one text; `ListingSingleHop` states it |
| Harvester.Listings | harvester.go:162-178 | the listing of each text in turn; `ListingsAt` states it pointwise |
| Harvester.EncounteredFor | harvester.go:168-170 | the content records one text makes: the original's, then the redirect target's |
| Harvester.EncounteredAll | harvester.go:162-178 | the content records of each text in turn |
| Serialization.Step | harvester.go:63-117 | the callbacks for one record and the error it stops at; `SerializeRecord` is proved to compute it |
| Serialization.Plan | harvester.go:62-121 | the callbacks for the records in order, up to the first failing render; `PlanError`, `PlanHandlers`, `PlanRenders` and `PlanOrdered` state what they are |
| MetaData.RefreshStep | resource.go:166-176 | one attribute of the refresh loop: a matching `content` attribute makes the page a redirect to its target |
| MetaData.TagStep | resource.go:182-186 | one attribute of the tag loop: a `content` attribute's value is stored under the name |
| MetaData.AttrStep | resource.go:164-187 | one attribute of the outer loop: the refresh loop for an `http-equiv` refresh, then the tag loop for a `property` or `name` attribute |
| MetaData.VisitNode | resource.go:160-188 | the walk's work at one node: a `<head>` sets the flag, and a `<meta>` under the flag is scanned |
| MetaData.WalkTree | resource.go:159-193 | the recursive walk: the node, then each child in turn |
| MetaData.ScanNodes | resource.go:159-194 | the same work done node by node over a list; `WalkTreeScans` relates the two |
| Text.EqualFold | resource.go:160-183 | `strings.EqualFold` against a lower-case ASCII literal, including the two non-ASCII runes that fold to ASCII letters |
| Text.IsSpace | resource.go:165-168 | `unicode.IsSpace`, the test `strings.TrimSpace` trims by |

## Left out

- HTTP is not modelled (`http.Get`, response bodies). What a GET of each URL text returns is fixed in advance by an environment value. This includes the URL after HTTP redirects, the status and the Content-Type.
- The URL discovery pattern (`xurls.Relaxed`) is not modelled. Its matches are an input sequence.
- `mime.ParseMediaType` and `html.Parse` are not modelled. Their results are part of the response value.
- Go's regular-expression engine is not modelled. Ignore and clean patterns are predicates paired with their source text, and an ignore pattern stands for a match against `url.String()`. Only `^utm_`, `^www.`, `\.[^\.]+?$` and the refresh pattern are written out by hand. For that reason the default ignore list (`DefaultIgnoreURLsRegExList`) is only a possible rule value, not a hand-modelled one.
- URL parsing, escaping and `String()` are not modelled. A URL is kept in parsed form with its query as a map. `cleanResource` copies the URL through `url.Parse(url.String())`; that copy is taken to succeed and to give an equal URL, so its error path is not modelled.
- `Query().Encode()` is not modelled. A cleaned URL is the parsed URL with a smaller query map.
- `url.Hostname()` is the parsed URL's `host` field.
- The file operations of `DownloadContent` are not modelled: creating the temporary file, `io.Copy`, reopening, the 261-byte read, `filetype.Match` sniffing and `os.Rename`. Their outcome is an input. `DownloadedContent.Delete` is file I/O and is left out.
- Download.DownloadContent: when the temporary file cannot be created, the source panics at resource.go:46, because it asks the nil file for its name before the error check at resource.go:50. `TempFileFailed` instead models lines 48-55 as if that call came after the check, recording the error in the download error with an empty path. The panic itself is not modelled.
- Tracing is left out: the observatory, spans, log fields and error tags. It has no effect on results.
- `time.Now()` is a single clock value in the environment. Every record of one batch gets the same `harvestedOn`, including a redirect target and its original. The source reads the clock once per record (resource.go:359), so later records may carry later times.
- Of `Serialize`'s callbacks, `GetKeys`, `GetTemplateParams`, `GetWriter` and template execution are foreign. The template is not executed; only what matters to the control flow is kept, namely whether `GetTemplate` or `Execute` fails for a record. Handler calls are recorded as a list of calls, not performed.
- `MakeDefaultContentHarvester` (harvester.go:135-137) is left out. It refers to lists that defaults.go does not define.
- `Close` (harvester.go:140-142) is left out. It does nothing.
- The `observatory` and `discoverURLsRegEx` fields of `ContentHarvester` are not modelled. The discovery pattern is part of the environment.
- Go's `nil` rules are not modelled. A rule is always present.
- `HarvestedResources` is a value holding the content and the list of record objects. Its list is built by `HarvestResources` and is not changed in place afterwards.
- Harvester.ContentHarvester.HarvestResources: states the listed records' views and referrers and the content records made, but not that the listed record objects are newly allocated.
- Harvester.ContentHarvester.HarvestResources: takes a ghost `resolve` function, proved equal to `Resolution` of its rules (`ResolutionResolves`). The harvest is stated through it.
- `HarvestedResource.OriginalURLText`, `IsValid`, `IsIgnored`, `IsCleaned`, `GetURLs` and `IsHTMLRedirect` are stated on the record's value view. `ReferredByResource` and `ResourceContent` are plain field reads on the class.
- `CleanResource` does not return the list of removed parameters and reasons, which the source also discards. The loop keeps that list as a local and proves each entry's reason is the rule's.
- Concurrency is not modelled; the harvester is sequential.
