/** The two rule interfaces of harvester.go:23-32. A rule is either one of
    the regular-expression lists of defaults.go or any other implementation,
    given by the answers its methods give. */
module Rules {
  import opened Urls
  import opened Defaults

  /** `IgnoreDiscoveredResourceRule`. */
  datatype IgnoreRule =
    | IgnoreList(list: IgnoreURLsRegExList)
    | IgnoreWith(decide: Url -> (bool, string))
  {
    function IgnoreDiscoveredResource(u: Url): (bool, string)
    {
      match this
      case IgnoreList(list) => list.IgnoreDiscoveredResource(u)
      case IgnoreWith(decide) => decide(u)
    }
  }

  /** `CleanDiscoveredResourceRule`. */
  datatype CleanRule =
    | CleanList(list: RemoveParamsFromURLsRegExList)
    | CleanWith(attempt: Url -> bool, removeParam: string -> (bool, string))
  {
    predicate CleanDiscoveredResource(u: Url)
    {
      match this
      case CleanList(list) => list.CleanDiscoveredResource(u)
      case CleanWith(attempt, _) => attempt(u)
    }

    function RemoveQueryParamFromResource(paramName: string): (bool, string)
    {
      match this
      case CleanList(list) => list.RemoveQueryParamFromResource(paramName)
      case CleanWith(_, removeParam) => removeParam(paramName)
    }

    /** The parameter names the rule removes. */
    predicate Removes(paramName: string)
    {
      RemoveQueryParamFromResource(paramName).0
    }
  }
}
