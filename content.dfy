/** `HarvestedResourceContent` (resource.go:97-242): what kind of content a
    URL leads to. `ContentView` is the record as its value-receiver
    accessors see it; the class of the same name is the record that
    `DetectHarvestedResourceContent` and `parsePageMetaData` fill in place,
    and `Detected` says what they leave in it. */
module Content {
  import opened Wrappers
  import opened Text
  import opened Urls
  import opened Html
  import opened Refresh
  import opened MetaData
  import opened Download
  import opened Transport

  const TextHtml := "text/html"

  datatype ContentView = ContentView(
    url: Url,
    contentType: string,
    mediaType: string,
    mediaTypeParams: map<string, string>,
    mediaTypeError: Option<string>,
    htmlParseError: Option<string>,
    isHTMLRedirect: bool,
    metaRefreshTagContentURLText: string,
    metaPropertyTags: map<string, string>,
    downloaded: Option<DownloadedContent>)
  {
    /** `IsValid`: no media-type error and, when the content was downloaded,
        neither a download nor a file-type error. */
    predicate IsValid()
    {
      && mediaTypeError.None?
      && (downloaded.Some? ==> downloaded.value.downloadError.None? && downloaded.value.fileTypeError.None?)
    }

    predicate IsHTML()
    {
      mediaType == TextHtml
    }

    /** A lookup in the meta tags: the value and true, or "" and false. */
    function MetaTag(name: string): (r: (string, bool))
      ensures r.1 <==> name in metaPropertyTags
      ensures r.1 ==> r.0 == metaPropertyTags[name]
      ensures !r.1 ==> r.0 == ""
    {
      if name in metaPropertyTags then (metaPropertyTags[name], true) else ("", false)
    }

    /** `GetOpenGraphMetaTag`: the tag `og:<key>`. */
    function GetOpenGraphMetaTag(key: string): (r: (string, bool))
      ensures r.1 <==> "og:" + key in metaPropertyTags
      ensures r.1 ==> r.0 == metaPropertyTags["og:" + key]
    {
      MetaTag("og:" + key)
    }

    /** `GetTwitterMetaTag`: the tag `twitter:<key>`. */
    function GetTwitterMetaTag(key: string): (r: (string, bool))
      ensures r.1 <==> "twitter:" + key in metaPropertyTags
      ensures r.1 ==> r.0 == metaPropertyTags["twitter:" + key]
    {
      MetaTag("twitter:" + key)
    }

    predicate WasDownloaded()
    {
      downloaded.Some?
    }

    function IsHTMLRedirect(): (bool, string)
    {
      (isHTMLRedirect, metaRefreshTagContentURLText)
    }

    /** The walk's view of the record, with its `inHead` flag. */
    function Meta(inHead: bool): MetaState
    {
      MetaState(inHead, metaPropertyTags, isHTMLRedirect, metaRefreshTagContentURLText)
    }
  }

  /** The record `new(HarvestedResourceContent)` gives once its URL and its
      empty tag map are set. */
  function Fresh(u: Url): ContentView
  {
    ContentView(u, "", "", map[], None, None, false, "", map[], None)
  }

  /** What `parsePageMetaData` leaves in the record: the parser's error, or
      what the walk over the document collected. */
  function WithPageMetaData(c: ContentView, doc: Result<Node, string>): ContentView
  {
    match doc
    case Failure(e) => c.(htmlParseError := Some(e))
    case Success(root) =>
      var m := WalkTree(root, c.Meta(false));
      c.(metaPropertyTags := m.tags, isHTMLRedirect := m.isHTMLRedirect, metaRefreshTagContentURLText := m.refreshURLText)
  }

  /** A download that was created, filled and recognised. */
  predicate DownloadOk(io: DownloadIo)
  {
    io.Sniffed? && io.sniffError.None?
  }

  /** What `DetectHarvestedResourceContent` returns for a response. */
  function Detected(u: Url, resp: Response): (r: ContentView)
    ensures r.url == u && r.contentType == resp.contentType
    ensures resp.contentType == "" ==> r.WasDownloaded() && r.mediaTypeError.None? && !r.IsHTML()
    ensures resp.contentType != "" && resp.mediaType.err.Some? ==>
      !r.WasDownloaded() && r.mediaTypeError == resp.mediaType.err && r.htmlParseError.None? && r.metaPropertyTags == map[]
    ensures resp.contentType != "" && resp.mediaType.err.None? && resp.mediaType.mediaType == TextHtml ==>
      r.IsHTML() && !r.WasDownloaded() && r.htmlParseError == (if resp.document.Failure? then Some(resp.document.error) else None)
    ensures resp.document.Failure? ==> r.metaPropertyTags == map[] && r.IsHTMLRedirect() == (false, "")
    ensures resp.contentType != "" && resp.mediaType.err.None? && resp.mediaType.mediaType != TextHtml ==>
      r.downloaded == Some(DownloadContent(u, resp.body)) && r.mediaType == resp.mediaType.mediaType
  {
    var base := Fresh(u).(contentType := resp.contentType);
    if |resp.contentType| > 0 then
      var parsed := base.(mediaType := resp.mediaType.mediaType, mediaTypeParams := resp.mediaType.params, mediaTypeError := resp.mediaType.err);
      if parsed.mediaTypeError.Some? then parsed
      else if parsed.IsHTML() then WithPageMetaData(parsed, resp.document)
      else parsed.(downloaded := Some(DownloadContent(u, resp.body)))
    else base.(downloaded := Some(DownloadContent(u, resp.body)))
  }

  /** `IsValid` of detected content is false exactly when the media type
      did not parse, or the content had to be downloaded and the download
      or its recognition failed; an HTML parse error does not make it
      invalid. */
  lemma DetectedValidity(u: Url, resp: Response)
    ensures Detected(u, resp).IsValid() <==>
      if resp.contentType == "" then DownloadOk(resp.body)
      else resp.mediaType.err.None? && (resp.mediaType.mediaType == TextHtml || DownloadOk(resp.body))
  {
  }

  /** On an HTML page the meta tags are what the walk over the parsed
      document collected, starting from none. */
  lemma DetectedPageTags(u: Url, resp: Response, root: Node)
    requires resp.contentType != "" && resp.mediaType.err.None? && resp.mediaType.mediaType == TextHtml
    requires resp.document == Success(root)
    ensures var r := Detected(u, resp);
      && r.metaPropertyTags == ScanNodes(Preorder(root), Initial).tags
      && r.IsHTMLRedirect() == (ScanNodes(Preorder(root), Initial).isHTMLRedirect, ScanNodes(Preorder(root), Initial).refreshURLText)
      && r.htmlParseError.None?
  {
    WalkTreeScans(root, Initial);
  }

  /** The record filled in place. */
  class HarvestedResourceContent {
    var url: Url
    var contentType: string
    var mediaType: string
    var mediaTypeParams: map<string, string>
    var mediaTypeError: Option<string>
    var htmlParseError: Option<string>
    var isHTMLRedirect: bool
    var metaRefreshTagContentURLText: string
    var metaPropertyTags: map<string, string>
    var downloaded: Option<DownloadedContent>

    function View(): ContentView
      reads this
    {
      ContentView(url, contentType, mediaType, mediaTypeParams, mediaTypeError, htmlParseError,
        isHTMLRedirect, metaRefreshTagContentURLText, metaPropertyTags, downloaded)
    }

    function Meta(inHead: bool): MetaState
      reads this
    {
      MetaState(inHead, metaPropertyTags, isHTMLRedirect, metaRefreshTagContentURLText)
    }

    constructor (u: Url)
      ensures View() == Fresh(u)
    {
      url := u;
      contentType, mediaType, mediaTypeParams, mediaTypeError := "", "", map[], None;
      htmlParseError, isHTMLRedirect, metaRefreshTagContentURLText := None, false, "";
      metaPropertyTags, downloaded := map[], None;
    }

    /** `DetectHarvestedResourceContent`. */
    static method DetectHarvestedResourceContent(u: Url, resp: Response) returns (c: HarvestedResourceContent)
      ensures fresh(c)
      ensures c.View() == Detected(u, resp)
    {
      c := new HarvestedResourceContent(u);
      c.contentType := resp.contentType;
      if |c.contentType| > 0 {
        c.mediaType, c.mediaTypeParams, c.mediaTypeError := resp.mediaType.mediaType, resp.mediaType.params, resp.mediaType.err;
        if c.mediaTypeError.Some? {
          return;
        }
        if c.View().IsHTML() {
          var _ := c.ParsePageMetaData(resp.document);
          return;
        }
      }
      c.downloaded := Some(DownloadContent(u, resp.body));
    }

    /** `parsePageMetaData`. */
    method ParsePageMetaData(doc: Result<Node, string>) returns (err: Option<string>)
      modifies this`htmlParseError, this`isHTMLRedirect, this`metaRefreshTagContentURLText, this`metaPropertyTags
      ensures View() == WithPageMetaData(old(View()), doc)
      ensures err == if doc.Failure? then Some(doc.error) else None
    {
      if doc.Failure? {
        htmlParseError := Some(doc.error);
        return Some(doc.error);
      }
      var _ := Visit(doc.value, false);
      return None;
    }

    /** The closure `f` of `parsePageMetaData`: the walk from `n` with the
        flag `inHead`, returning the flag as the walk leaves it. */
    method Visit(n: Node, inHead: bool) returns (flag: bool)
      modifies this`isHTMLRedirect, this`metaRefreshTagContentURLText, this`metaPropertyTags
      ensures Meta(flag) == WalkTree(n, old(Meta(inHead)))
      decreases n
    {
      flag := VisitOwn(n, inHead);
      ghost var visited := VisitNode(n, old(Meta(inHead)));
      var i := 0;
      while i < |n.children|
        invariant 0 <= i <= |n.children|
        invariant Meta(flag) == WalkForest(n.children[..i], visited)
      {
        assert n.children[..i + 1][..i] == n.children[..i];
        flag := Visit(n.children[i], flag);
        i := i + 1;
      }
      assert n.children[..i] == n.children;
    }

    /** The closure's work at `n` itself, before the children. */
    method VisitOwn(n: Node, inHead: bool) returns (flag: bool)
      modifies this`isHTMLRedirect, this`metaRefreshTagContentURLText, this`metaPropertyTags
      ensures Meta(flag) == VisitNode(n, old(Meta(inHead)))
    {
      flag := inHead;
      if n.nodeType == ElementNode && EqualFold(n.data, "head") {
        flag := true;
      }
      ghost var s1 := Meta(flag);
      if flag && n.nodeType == ElementNode && EqualFold(n.data, "meta") {
        ScanMetaAttributes(n.attr);
        AttrsOverKeepsFlag(n.attr, n.attr, s1);
      }
    }

    /** The loop over the attributes of a `<meta>` element met inside the
        head. */
    method ScanMetaAttributes(attrs: seq<Attribute>)
      modifies this`isHTMLRedirect, this`metaRefreshTagContentURLText, this`metaPropertyTags
      ensures Meta(true) == AttrsOver(attrs, attrs, old(Meta(true)))
    {
      var i := 0;
      while i < |attrs|
        invariant 0 <= i <= |attrs|
        invariant Meta(true) == AttrsOver(attrs, attrs[..i], old(Meta(true)))
      {
        assert attrs[..i + 1][..i] == attrs[..i];
        var attr := attrs[i];
        if EqualFold(attr.key, "http-equiv") && EqualFold(TrimSpace(attr.val), "refresh") {
          ScanRefresh(attrs);
        }
        if EqualFold(attr.key, "property") || EqualFold(attr.key, "name") {
          ScanContent(attrs, attr.val);
        }
        i := i + 1;
      }
      assert attrs[..i] == attrs;
    }

    /** The inner loop for a refresh directive: every `content` attribute
        whose trimmed value matches the pattern (`RefreshTarget`) makes the
        page a redirect to the target it names. */
    method ScanRefresh(attrs: seq<Attribute>)
      modifies this`isHTMLRedirect, this`metaRefreshTagContentURLText
      ensures Meta(true) == RefreshOver(attrs, old(Meta(true)))
    {
      var j := 0;
      while j < |attrs|
        invariant 0 <= j <= |attrs|
        invariant Meta(true) == RefreshOver(attrs[..j], old(Meta(true)))
      {
        RefreshOverSnoc(attrs, j, old(Meta(true)));
        var target := RefreshTarget(attrs[j]);
        if target.Some? {
          isHTMLRedirect, metaRefreshTagContentURLText := true, target.value;
        }
        j := j + 1;
      }
      assert attrs[..j] == attrs;
    }

    /** The inner loop for a property or name attribute: every `content`
        attribute's value is stored under `propertyName`. */
    method ScanContent(attrs: seq<Attribute>, propertyName: string)
      modifies this`metaPropertyTags
      ensures Meta(true) == TagOver(attrs, propertyName, old(Meta(true)))
    {
      var j := 0;
      while j < |attrs|
        invariant 0 <= j <= |attrs|
        invariant Meta(true) == TagOver(attrs[..j], propertyName, old(Meta(true)))
      {
        TagOverSnoc(attrs, j, propertyName, old(Meta(true)));
        if EqualFold(attrs[j].key, "content") {
          metaPropertyTags := metaPropertyTags[propertyName := attrs[j].val];
        }
        j := j + 1;
      }
      assert attrs[..j] == attrs;
    }
  }
}
