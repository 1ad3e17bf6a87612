/** The parts of Go's `net/url.URL` that the harvester looks at. Parsing,
    escaping and `String()` belong to the standard library and are not
    modelled; a URL is kept in parsed form. */
module Urls {

  /** `url.Values`: each query parameter name with its list of values. Go's
      map has no order, and neither has this one. */
  type Query = map<string, seq<string>>

  /** A parsed URL. `host` is what `Hostname()` returns (no port); user
      information, port and opaque parts are folded into the other fields. */
  datatype Url = Url(scheme: string, host: string, path: string, query: Query, fragment: string)
}
