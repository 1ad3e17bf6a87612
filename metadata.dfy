/** What `parsePageMetaData` (resource.go:144-196) collects from a parsed
    page, as functions over the node tree: the `<meta>` property and name
    tags and the refresh target. The walk visits a node, then its children
    in order; the `inHead` flag it carries is set by the first `<head>`
    element and never cleared, and only `<meta>` elements seen while it is
    set are looked at. The class in content.dfy runs this walk in place and
    is proved to compute these functions. */
module MetaData {
  import opened Wrappers
  import opened Text
  import opened Html
  import opened Refresh

  /** The walk's variables: its own `inHead` flag and the three fields of
      the content record it writes. */
  datatype MetaState = MetaState(inHead: bool, tags: map<string, string>, isHTMLRedirect: bool, refreshURLText: string)

  /** The state the walk starts from: a freshly made record. */
  const Initial := MetaState(false, map[], false, "")

  predicate IsRefreshDirective(a: Attribute)
  {
    EqualFold(a.key, "http-equiv") && EqualFold(TrimSpace(a.val), "refresh")
  }

  predicate IsNameKey(a: Attribute)
  {
    EqualFold(a.key, "property") || EqualFold(a.key, "name")
  }

  predicate IsContentKey(a: Attribute)
  {
    EqualFold(a.key, "content")
  }

  /** The target a `content` attribute names when its trimmed value matches
      the refresh pattern. */
  function RefreshTarget(a: Attribute): Option<string>
  {
    if !IsContentKey(a) then None
    else
      var m := MatchRefresh(TrimSpace(a.val));
      if m.None? then None else Some(m.value.url)
  }

  /** One turn of the inner loop over the attributes for a refresh
      directive. */
  function RefreshStep(s: MetaState, b: Attribute): MetaState
  {
    var t := RefreshTarget(b);
    if t.None? then s else s.(isHTMLRedirect := true, refreshURLText := t.value)
  }

  function RefreshOver(attrs: seq<Attribute>, s: MetaState): MetaState
  {
    if attrs == [] then s else RefreshStep(RefreshOver(attrs[..|attrs| - 1], s), attrs[|attrs| - 1])
  }

  /** One turn of the inner loop over the attributes for a property or name
      attribute whose value is `name`. */
  function TagStep(name: string, s: MetaState, b: Attribute): MetaState
  {
    if IsContentKey(b) then s.(tags := s.tags[name := b.val]) else s
  }

  function TagOver(attrs: seq<Attribute>, name: string, s: MetaState): MetaState
  {
    if attrs == [] then s else TagStep(name, TagOver(attrs[..|attrs| - 1], name, s), attrs[|attrs| - 1])
  }

  /** One turn of the outer loop over the attributes `all` of a `<meta>`
      element, for its attribute `a`. */
  function AttrStep(all: seq<Attribute>, s: MetaState, a: Attribute): MetaState
  {
    var s1 := if IsRefreshDirective(a) then RefreshOver(all, s) else s;
    if IsNameKey(a) then TagOver(all, a.val, s1) else s1
  }

  /** The outer loop after it has gone through `done`, a prefix of `all`. */
  function AttrsOver(all: seq<Attribute>, done: seq<Attribute>, s: MetaState): MetaState
  {
    if done == [] then s else AttrStep(all, AttrsOver(all, done[..|done| - 1], s), done[|done| - 1])
  }

  /** The walk's work at one node, before it goes on to the children. */
  function VisitNode(n: Node, s: MetaState): MetaState
  {
    var s1 := if IsElement(n, "head") then s.(inHead := true) else s;
    if s1.inHead && IsElement(n, "meta") then AttrsOver(n.attr, n.attr, s1) else s1
  }

  /** The recursive walk over a tree. */
  function WalkTree(n: Node, s: MetaState): MetaState
    decreases n
  {
    WalkForest(n.children, VisitNode(n, s))
  }

  /** The walk over a list of sibling trees, first to last. */
  function WalkForest(ns: seq<Node>, s: MetaState): MetaState
    decreases ns
  {
    if ns == [] then s else WalkTree(ns[|ns| - 1], WalkForest(ns[..|ns| - 1], s))
  }

  /** The same work done node by node over a list of nodes. */
  function ScanNodes(ns: seq<Node>, s: MetaState): MetaState
  {
    if ns == [] then s else VisitNode(ns[|ns| - 1], ScanNodes(ns[..|ns| - 1], s))
  }

  /** The value of the last `content` attribute. */
  function LastContent(attrs: seq<Attribute>): (r: Option<string>)
    ensures r.Some? ==> exists i :: (0 <= i < |attrs| && IsContentKey(attrs[i]) && attrs[i].val == r.value
                                     && forall j :: i < j < |attrs| ==> !IsContentKey(attrs[j]))
    ensures r.None? <==> forall i :: 0 <= i < |attrs| ==> !IsContentKey(attrs[i])
  {
    if attrs == [] then None
    else if IsContentKey(attrs[|attrs| - 1]) then Some(attrs[|attrs| - 1].val)
    else
      var r := LastContent(attrs[..|attrs| - 1]);
      assert forall i :: 0 <= i < |attrs| - 1 ==> attrs[..|attrs| - 1][i] == attrs[i];
      r
  }

  /** The target of the last `content` attribute that matches the refresh
      pattern. */
  function LastTarget(attrs: seq<Attribute>): (r: Option<string>)
    ensures r.Some? ==> exists i :: (0 <= i < |attrs| && RefreshTarget(attrs[i]) == r
                                     && forall j :: i < j < |attrs| ==> RefreshTarget(attrs[j]).None?)
    ensures r.None? <==> forall i :: 0 <= i < |attrs| ==> RefreshTarget(attrs[i]).None?
  {
    if attrs == [] then None
    else
      var t := RefreshTarget(attrs[|attrs| - 1]);
      if t.Some? then t
      else
        var r := LastTarget(attrs[..|attrs| - 1]);
        LastMatchExtends(attrs, RefreshTarget, r);
        r
  }

  /** A last match among all but the final element stays the last match
      when the final element does not match. */
  lemma LastMatchExtends<T>(xs: seq<T>, f: T -> Option<string>, r: Option<string>)
    requires xs != [] && f(xs[|xs| - 1]).None?
    requires var init := xs[..|xs| - 1];
      r.Some? ==> exists i :: (0 <= i < |init| && f(init[i]) == r && forall j :: i < j < |init| ==> f(init[j]).None?)
    requires var init := xs[..|xs| - 1];
      r.None? <==> forall i :: 0 <= i < |init| ==> f(init[i]).None?
    ensures r.Some? ==> exists i :: (0 <= i < |xs| && f(xs[i]) == r && forall j :: i < j < |xs| ==> f(xs[j]).None?)
    ensures r.None? <==> forall i :: 0 <= i < |xs| ==> f(xs[i]).None?
  {
    var init := xs[..|xs| - 1];
    assert forall i :: 0 <= i < |init| ==> init[i] == xs[i];
    if r.Some? {
      var i :| 0 <= i < |init| && f(init[i]) == r && forall j :: i < j < |init| ==> f(init[j]).None?;
      assert f(xs[i]) == r;
    }
  }

  /** The values of the property and name attributes among `attrs`. */
  function NamedKeys(attrs: seq<Attribute>): (r: set<string>)
    ensures forall k :: k in r <==> exists i :: 0 <= i < |attrs| && IsNameKey(attrs[i]) && attrs[i].val == k
  {
    if attrs == [] then {}
    else
      var rest := NamedKeys(attrs[..|attrs| - 1]);
      var a := attrs[|attrs| - 1];
      assert forall i :: 0 <= i < |attrs| - 1 ==> attrs[..|attrs| - 1][i] == attrs[i];
      if IsNameKey(a) then rest + {a.val} else rest
  }

  /** `m` with every key of `keys` set to `v`. */
  function SetAll(m: map<string, string>, keys: set<string>, v: string): (r: map<string, string>)
    ensures r.Keys == m.Keys + keys
    ensures forall k :: k in keys ==> r[k] == v
    ensures forall k :: k in m && k !in keys ==> r[k] == m[k]
  {
    map k | k in m.Keys + keys :: if k in keys then v else m[k]
  }

  /** Setting one more key to the same value. */
  lemma SetAllInsert(m: map<string, string>, keys: set<string>, k: string, v: string)
    ensures SetAll(m, keys + {k}, v) == SetAll(m, keys, v)[k := v]
  {
  }

  /** The refresh loop over one more attribute takes one more step. */
  lemma RefreshOverSnoc(attrs: seq<Attribute>, j: nat, s: MetaState)
    requires j < |attrs|
    ensures RefreshOver(attrs[..j + 1], s) == RefreshStep(RefreshOver(attrs[..j], s), attrs[j])
  {
    assert attrs[..j + 1][..j] == attrs[..j];
  }

  /** The tag loop over one more attribute takes one more step. */
  lemma TagOverSnoc(attrs: seq<Attribute>, j: nat, name: string, s: MetaState)
    requires j < |attrs|
    ensures TagOver(attrs[..j + 1], name, s) == TagStep(name, TagOver(attrs[..j], name, s), attrs[j])
  {
    assert attrs[..j + 1][..j] == attrs[..j];
  }

  /** The refresh loop leaves the last matching target, and marks the page
      a redirect when there is one; a later match overwrites an earlier one. */
  lemma {:induction false} RefreshOverLast(attrs: seq<Attribute>, s: MetaState)
    ensures RefreshOver(attrs, s)
      == if LastTarget(attrs).None? then s else s.(isHTMLRedirect := true, refreshURLText := LastTarget(attrs).value)
  {
    if attrs != [] {
      RefreshOverLast(attrs[..|attrs| - 1], s);
    }
  }

  /** The tag loop for one name leaves the value of the last `content`
      attribute under that name. */
  lemma {:induction false} TagOverLast(attrs: seq<Attribute>, name: string, s: MetaState)
    ensures TagOver(attrs, name, s)
      == if LastContent(attrs).None? then s else s.(tags := s.tags[name := LastContent(attrs).value])
  {
    if attrs != [] {
      TagOverLast(attrs[..|attrs| - 1], name, s);
    }
  }

  predicate HasRefreshDirective(attrs: seq<Attribute>)
  {
    exists i :: 0 <= i < |attrs| && IsRefreshDirective(attrs[i])
  }

  lemma HasRefreshDirectiveSnoc(attrs: seq<Attribute>)
    requires attrs != []
    ensures HasRefreshDirective(attrs)
      <==> HasRefreshDirective(attrs[..|attrs| - 1]) || IsRefreshDirective(attrs[|attrs| - 1])
  {
    assert forall i :: 0 <= i < |attrs| - 1 ==> attrs[..|attrs| - 1][i] == attrs[i];
  }

  /** One turn of the outer loop, in closed form. */
  lemma AttrStepEffect(all: seq<Attribute>, p: MetaState, a: Attribute)
    ensures AttrStep(all, p, a).inHead == p.inHead
    ensures AttrStep(all, p, a).tags
      == if IsNameKey(a) && LastContent(all).Some? then p.tags[a.val := LastContent(all).value] else p.tags
    ensures var r := AttrStep(all, p, a);
      if IsRefreshDirective(a) && LastTarget(all).Some?
      then r.isHTMLRedirect && r.refreshURLText == LastTarget(all).value
      else r.isHTMLRedirect == p.isHTMLRedirect && r.refreshURLText == p.refreshURLText
  {
    RefreshOverLast(all, p);
    TagOverLast(all, a.val, if IsRefreshDirective(a) then RefreshOver(all, p) else p);
  }

  /** The outer loop over a `<meta>` element's attributes leaves the flag
      alone. */
  lemma {:induction false} AttrsOverKeepsFlag(all: seq<Attribute>, done: seq<Attribute>, s: MetaState)
    ensures AttrsOver(all, done, s).inHead == s.inHead
  {
    if done != [] {
      AttrsOverKeepsFlag(all, done[..|done| - 1], s);
      AttrStepEffect(all, AttrsOver(all, done[..|done| - 1], s), done[|done| - 1]);
    }
  }

  /** The tags after the outer loop, in closed form: every property or name
      value is mapped to the last `content` value, when there is one, and
      no other key changes. */
  lemma {:induction false} AttrsOverTags(all: seq<Attribute>, done: seq<Attribute>, s: MetaState)
    ensures AttrsOver(all, done, s).tags
      == if LastContent(all).None? then s.tags else SetAll(s.tags, NamedKeys(done), LastContent(all).value)
  {
    if done != [] {
      var prev := done[..|done| - 1];
      var a := done[|done| - 1];
      AttrsOverTags(all, prev, s);
      AttrStepEffect(all, AttrsOver(all, prev, s), a);
      if IsNameKey(a) && LastContent(all).Some? {
        SetAllInsert(s.tags, NamedKeys(prev), a.val, LastContent(all).value);
      }
    }
  }

  /** The refresh fields after the outer loop: the page is a redirect to the
      last matching target when an `http-equiv` attribute says `refresh`
      and some `content` value matches; otherwise they are unchanged. */
  lemma {:induction false} AttrsOverRefresh(all: seq<Attribute>, done: seq<Attribute>, s: MetaState)
    ensures var r := AttrsOver(all, done, s);
      if HasRefreshDirective(done) && LastTarget(all).Some?
      then r.isHTMLRedirect && r.refreshURLText == LastTarget(all).value
      else r.isHTMLRedirect == s.isHTMLRedirect && r.refreshURLText == s.refreshURLText
  {
    if done != [] {
      var prev := done[..|done| - 1];
      var a := done[|done| - 1];
      AttrsOverRefresh(all, prev, s);
      AttrStepEffect(all, AttrsOver(all, prev, s), a);
      HasRefreshDirectiveSnoc(done);
    }
  }

  /** Splitting the nodes splits the scan. */
  lemma {:induction false} ScanNodesAppend(a: seq<Node>, b: seq<Node>, s: MetaState)
    ensures ScanNodes(a + b, s) == ScanNodes(b, ScanNodes(a, s))
  {
    if b != [] {
      assert (a + b)[..|a + b| - 1] == a + b[..|b| - 1];
      ScanNodesAppend(a, b[..|b| - 1], s);
    } else {
      assert a + b == a;
    }
  }

  /** The recursive walk does the node-by-node work in document order. */
  lemma {:induction false} WalkTreeScans(n: Node, s: MetaState)
    ensures WalkTree(n, s) == ScanNodes(Preorder(n), s)
    decreases n, 1
  {
    WalkForestScans(n.children, VisitNode(n, s));
    ScanNodesAppend([n], PreorderForest(n.children), s);
    assert ScanNodes([n], s) == VisitNode(n, s) by {
      assert [n][..0] == [];
    }
  }

  lemma {:induction false} WalkForestScans(ns: seq<Node>, s: MetaState)
    ensures WalkForest(ns, s) == ScanNodes(PreorderForest(ns), s)
    decreases ns, 0
  {
    if ns != [] {
      var init := ns[..|ns| - 1];
      var last := ns[|ns| - 1];
      WalkForestScans(init, s);
      WalkTreeScans(last, WalkForest(init, s));
      ScanNodesAppend(PreorderForest(init), Preorder(last), s);
    }
  }

  /** Until a `<head>` element is met, nothing is collected. */
  lemma {:induction false} NoHeadNoEffect(ns: seq<Node>, s: MetaState)
    requires !s.inHead
    requires forall i :: 0 <= i < |ns| ==> !IsElement(ns[i], "head")
    ensures ScanNodes(ns, s) == s
  {
    if ns != [] {
      NoHeadNoEffect(ns[..|ns| - 1], s);
    }
  }

  /** Once set, the flag stays set, and a page found to be a redirect stays
      one. */
  lemma {:induction false} ScanKeepsFlags(ns: seq<Node>, s: MetaState)
    ensures s.inHead ==> ScanNodes(ns, s).inHead
    ensures s.isHTMLRedirect ==> ScanNodes(ns, s).isHTMLRedirect
  {
    if ns != [] {
      var p := ScanNodes(ns[..|ns| - 1], s);
      ScanKeepsFlags(ns[..|ns| - 1], s);
      var n := ns[|ns| - 1];
      var s1 := if IsElement(n, "head") then p.(inHead := true) else p;
      AttrsOverKeepsFlag(n.attr, n.attr, s1);
      AttrsOverRefresh(n.attr, n.attr, s1);
    }
  }

  /** Scanning a page is scanning it from its first `<head>` element on:
      the nodes before that element in document order play no part. */
  lemma ScanFromFirstHead(before: seq<Node>, head: Node, after: seq<Node>, s: MetaState)
    requires !s.inHead
    requires forall i :: 0 <= i < |before| ==> !IsElement(before[i], "head")
    requires IsElement(head, "head")
    ensures ScanNodes(before + [head] + after, s) == ScanNodes([head] + after, s)
    ensures ScanNodes([head], s).inHead
  {
    ScanNodesAppend(before, [head] + after, s);
    NoHeadNoEffect(before, s);
    assert before + [head] + after == before + ([head] + after);
    assert ScanNodes([head], s) == VisitNode(head, s) by {
      assert [head][..0] == [];
    }
    AttrsOverKeepsFlag(head.attr, head.attr, s.(inHead := true));
  }
}
