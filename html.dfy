/** The part of the `golang.org/x/net/html` node tree the metadata walk
    looks at. A node's children are the chain `FirstChild`, `NextSibling`,
    ... written as a sequence; the parser itself is not modelled and its
    result is an input. */
module Html {
  import opened Text

  datatype NodeType = ErrorNode | TextNode | DocumentNode | ElementNode | CommentNode | DoctypeNode | RawNode

  datatype Attribute = Attribute(namespace: string, key: string, val: string)

  datatype Node = Node(nodeType: NodeType, data: string, attr: seq<Attribute>, children: seq<Node>)

  /** An element whose tag name equals `tag` ignoring case, as
      `n.Type == html.ElementNode && strings.EqualFold(n.Data, tag)` tests. */
  predicate IsElement(n: Node, tag: string)
  {
    n.nodeType == ElementNode && EqualFold(n.data, tag)
  }

  /** The nodes of a tree in document order: the node, then each child's
      subtree in turn. */
  function Preorder(n: Node): (r: seq<Node>)
    ensures r != [] && r[0] == n
    decreases n
  {
    [n] + PreorderForest(n.children)
  }

  /** The nodes of a list of sibling trees in document order. */
  function PreorderForest(ns: seq<Node>): seq<Node>
    decreases ns
  {
    if ns == [] then [] else PreorderForest(ns[..|ns| - 1]) + Preorder(ns[|ns| - 1])
  }
}
