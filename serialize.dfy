/** What `HarvestedResources.Serialize` (harvester.go:50-121) does with each
    record, stated over the records' views. The three handlers of
    `HarvestedResourcesSerializer` may be nil; the keys, the template, its
    parameters, the writer and the template execution are foreign, and all
    that matters of them here is whether looking up or executing the
    template fails for a record. */
module Serialization {
  import opened Wrappers
  import opened Resource

  /** `HarvestedResourcesSerializer`: which of the three handlers are set,
      the error `GetTemplate` gives for a record's keys, and the error
      `Execute` gives for the content and the record. */
  datatype Serializer = Serializer(
    handleInvalidURL: bool,
    handleInvalidURLDest: bool,
    handleIgnoredURL: bool,
    templateError: ResourceView -> Option<string>,
    executeError: (string, ResourceView) -> Option<string>)

  /** A callback `Serialize` makes for the record at `index`: one of the
      three handlers, or the rendering of the record (`GetKeys`, then
      `GetTemplate` and, when that succeeds, `Execute`). */
  datatype Call = InvalidURL(index: nat) | InvalidURLDest(index: nat) | IgnoredURL(index: nat) | Render(index: nat)

  /** A record that is rendered rather than handed to a handler. */
  predicate Renders(v: ResourceView)
  {
    v.IsValid().0 && v.IsValid().1 && !v.IsIgnored().0
  }

  /** The error rendering a record gives: the template's, else the
      execution's. */
  function RenderError(s: Serializer, content: string, v: ResourceView): Option<string>
  {
    if s.templateError(v).Some? then s.templateError(v) else s.executeError(content, v)
  }

  /** The callbacks made for the record at `i` and the error it stops at. */
  function Step(s: Serializer, content: string, v: ResourceView, i: nat): (seq<Call>, Option<string>)
  {
    if !v.IsValid().0 then (if s.handleInvalidURL then [InvalidURL(i)] else [], None)
    else if !v.IsValid().1 then (if s.handleInvalidURLDest then [InvalidURLDest(i)] else [], None)
    else if v.IsIgnored().0 then (if s.handleIgnoredURL then [IgnoredURL(i)] else [], None)
    else ([Render(i)], RenderError(s, content, v))
  }

  /** One record of the loop of `Serialize` (harvester.go:64-117): the
      handler of the first test it fails, when set, or the rendering, which
      stops at the template's error before executing it. */
  method SerializeRecord(s: Serializer, content: string, hr: ResourceView, i: nat)
    returns (made: seq<Call>, failed: Option<string>)
    ensures (made, failed) == Step(s, content, hr, i)
  {
    made, failed := [], None;
    var validity := hr.IsValid();
    if !validity.0 {
      if s.handleInvalidURL {
        made := [InvalidURL(i)];
      }
    } else if !validity.1 {
      if s.handleInvalidURLDest {
        made := [InvalidURLDest(i)];
      }
    } else if hr.IsIgnored().0 {
      if s.handleIgnoredURL {
        made := [IgnoredURL(i)];
      }
    } else {
      made := [Render(i)];
      var tmplErr := s.templateError(hr);
      if tmplErr.Some? {
        failed := tmplErr;
      } else {
        failed := s.executeError(content, hr);
      }
    }
  }

  /** The callbacks made for the records `vs`, in order, and the error
      returned: the records after the first failing render are not
      reached. */
  function Plan(s: Serializer, content: string, vs: seq<ResourceView>): (seq<Call>, Option<string>)
  {
    if vs == [] then ([], None)
    else
      var prev := Plan(s, content, vs[..|vs| - 1]);
      if prev.1.Some? then prev
      else
        var last := Step(s, content, vs[|vs| - 1], |vs| - 1);
        (prev.0 + last.0, last.1)
  }

  /** The index of the first record whose render fails, or `|vs|` when
      none does. */
  function FirstFailure(s: Serializer, content: string, vs: seq<ResourceView>): (k: nat)
    ensures k <= |vs|
    ensures k < |vs| ==> Renders(vs[k]) && RenderError(s, content, vs[k]).Some?
    ensures forall j :: 0 <= j < k && Renders(vs[j]) ==> RenderError(s, content, vs[j]).None?
  {
    if vs == [] then 0
    else
      var k := FirstFailure(s, content, vs[..|vs| - 1]);
      if k < |vs| - 1 then k
      else if Renders(vs[|vs| - 1]) && RenderError(s, content, vs[|vs| - 1]).Some? then |vs| - 1
      else |vs|
  }

  /** A prefix one record longer takes one more step, unless it has
      stopped. */
  lemma PlanSnoc(s: Serializer, content: string, vs: seq<ResourceView>, i: nat)
    requires i < |vs|
    ensures var prev := Plan(s, content, vs[..i]);
      var last := Step(s, content, vs[i], i);
      Plan(s, content, vs[..i + 1]) == if prev.1.Some? then prev else (prev.0 + last.0, last.1)
  {
    assert vs[..i + 1][..i] == vs[..i];
  }

  /** Once a render has failed, the records after it change nothing. */
  lemma {:induction false} PlanAfterError(s: Serializer, content: string, vs: seq<ResourceView>, k: nat)
    requires k <= |vs| && Plan(s, content, vs[..k]).1.Some?
    ensures Plan(s, content, vs) == Plan(s, content, vs[..k])
    decreases |vs| - k
  {
    if k < |vs| {
      PlanSnoc(s, content, vs, k);
      PlanAfterError(s, content, vs, k + 1);
    } else {
      assert vs[..k] == vs;
    }
  }

  /** `Serialize` returns the error of the first failing render, and nil
      when every render succeeds. */
  lemma {:induction false} PlanError(s: Serializer, content: string, vs: seq<ResourceView>)
    ensures var k := FirstFailure(s, content, vs);
      Plan(s, content, vs).1 == if k == |vs| then None else RenderError(s, content, vs[k])
  {
    if vs != [] {
      var init := vs[..|vs| - 1];
      PlanError(s, content, init);
    }
  }

  /** `Serialize` returns nil exactly when every record it renders
      renders without error. */
  lemma PlanSucceeds(s: Serializer, content: string, vs: seq<ResourceView>)
    ensures Plan(s, content, vs).1.None?
      <==> forall i :: 0 <= i < |vs| && Renders(vs[i]) ==> RenderError(s, content, vs[i]).None?
  {
    PlanError(s, content, vs);
  }

  /** Which handlers are called: every record up to and including the
      first failing one gets the handler of the first test it fails, when
      that handler is set; no record after it gets anything. */
  lemma {:induction false} PlanHandlers(s: Serializer, content: string, vs: seq<ResourceView>)
    ensures var k := FirstFailure(s, content, vs);
      var calls := Plan(s, content, vs).0;
      forall i: nat ::
        && (InvalidURL(i) in calls <==> i <= k && i < |vs| && !vs[i].IsValid().0 && s.handleInvalidURL)
        && (InvalidURLDest(i) in calls <==>
              i <= k && i < |vs| && vs[i].IsValid().0 && !vs[i].IsValid().1 && s.handleInvalidURLDest)
        && (IgnoredURL(i) in calls <==>
              i <= k && i < |vs| && vs[i].IsValid().0 && vs[i].IsValid().1 && vs[i].IsIgnored().0 && s.handleIgnoredURL)
  {
    if vs != [] {
      var init := vs[..|vs| - 1];
      PlanHandlers(s, content, init);
      PlanError(s, content, init);
    }
  }

  /** Which records are rendered: those that pass all three tests, up to
      and including the first whose render fails. */
  lemma {:induction false} PlanRenders(s: Serializer, content: string, vs: seq<ResourceView>)
    ensures var k := FirstFailure(s, content, vs);
      forall i: nat :: Render(i) in Plan(s, content, vs).0 <==> i <= k && i < |vs| && Renders(vs[i])
  {
    if vs != [] {
      var init := vs[..|vs| - 1];
      PlanRenders(s, content, init);
      PlanError(s, content, init);
    }
  }

  /** The callbacks are made in the order of the records, at most one per
      record. */
  lemma {:induction false} PlanOrdered(s: Serializer, content: string, vs: seq<ResourceView>)
    ensures forall a, b :: 0 <= a < b < |Plan(s, content, vs).0| ==> Plan(s, content, vs).0[a].index < Plan(s, content, vs).0[b].index
    ensures forall c :: c in Plan(s, content, vs).0 ==> c.index < |vs|
  {
    if vs != [] {
      var n := |vs| - 1;
      PlanOrdered(s, content, vs[..n]);
      var prev := Plan(s, content, vs[..n]);
      if prev.1.None? {
        var last := Step(s, content, vs[n], n);
        assert |last.0| <= 1 && forall c :: c in last.0 ==> c.index == n;
        var calls := prev.0 + last.0;
        forall a, b | 0 <= a < b < |calls|
          ensures calls[a].index < calls[b].index
        {
          if b < |prev.0| {
            assert calls[a] == prev.0[a] && calls[b] == prev.0[b];
          } else {
            assert a < |prev.0| && calls[a] == prev.0[a] && prev.0[a] in prev.0;
            assert calls[b] == last.0[b - |prev.0|] && last.0[b - |prev.0|] in last.0;
          }
        }
      }
    }
  }
}
