/** What the harvester gets back from the world for one URL text. `http.Get`
    (which follows HTTP redirects), `mime.ParseMediaType`, `html.Parse` and
    the file operations of a download are not modelled: their results are
    inputs, fixed in advance for every URL text. */
module Transport {
  import opened Wrappers
  import opened Urls
  import opened Html
  import opened Download

  /** What `mime.ParseMediaType` returns for the `Content-Type` header: the
      media type and its parameters, and an error when the header does not
      parse. */
  datatype MediaTypeParse = MediaTypeParse(mediaType: string, params: map<string, string>, err: Option<string>)

  /** A response: the status code, the URL of the last request after HTTP
      redirects (`resp.Request.URL`), the `Content-Type` header, and what
      each reader of the body would get from it: the parser's document or
      error, and the outcome of downloading it to a file. */
  datatype Response = Response(
    statusCode: int,
    requestURL: Url,
    contentType: string,
    mediaType: MediaTypeParse,
    document: Result<Node, string>,
    body: DownloadIo)

  /** The outcome of `http.Get`. */
  datatype Fetch = TransportError(err: string) | Responded(resp: Response)

  /** The world the harvester runs in: the URL texts the discovery pattern
      finds in a piece of content (`xurls.Relaxed`'s `FindAllString`), what
      a GET of each URL text returns, and the time `time.Now()` reads. */
  datatype Environment = Environment(
    discover: string -> seq<string>,
    fetch: string -> Fetch,
    now: int)
}
