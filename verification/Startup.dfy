/** Dependency-ordered startup: TransportManager.startTransports with its diagnosis
    (fork/sing-box/dns/transport_manager.go), and the same loop in the outbound
    manager (fork/sing-box/adapter/outbound/manager.go). */
module Startup {

  datatype Component = Component(tag: string, deps: seq<string>)

  // How startup ends; the two diagnoses carry what their messages print.
  datatype Result =
    | Started
    | StartFailed(tag: string)
    | Circular(chain: seq<string>, again: string)
    | NotFound(dep: string, of: string)

  predicate DistinctTags(cs: seq<Component>) {
    forall i, j :: 0 <= i < j < |cs| ==> cs[i].tag != cs[j].tag
  }

  function Tags(cs: seq<Component>): set<string> {
    set i | 0 <= i < |cs| :: cs[i].tag
  }

  function SetOf(order: seq<string>): set<string> {
    set t | t in order
  }

  // The registry resolves tags to components of the list.
  predicate Registry(cs: seq<Component>, byTag: map<string, Component>) {
    forall t :: t in byTag ==> byTag[t] in cs && byTag[t].tag == t
  }

  // ---- The dependency graph ----

  ghost predicate DependsOn(cs: seq<Component>, tag: string, dep: string) {
    exists i :: 0 <= i < |cs| && cs[i].tag == tag && dep in cs[i].deps
  }

  // A walk along dependencies.
  ghost predicate Chain(cs: seq<Component>, path: seq<string>) {
    forall i :: 0 <= i < |path| - 1 ==> DependsOn(cs, path[i], path[i + 1])
  }

  ghost predicate Cycle(cs: seq<Component>, path: seq<string>) {
    path != [] && Chain(cs, path) && DependsOn(cs, path[|path| - 1], path[0])
  }

  ghost predicate Acyclic(cs: seq<Component>) {
    forall path: seq<string> :: !Cycle(cs, path)
  }

  predicate Closed(cs: seq<Component>) {
    forall i :: 0 <= i < |cs| ==> forall d :: d in cs[i].deps ==> d in Tags(cs)
  }

  // Each component started once, after all its dependencies.
  ghost predicate Ordered(cs: seq<Component>, order: seq<string>) {
    && (forall i :: 0 <= i < |order| ==> order[i] in Tags(cs))
    && (forall i, j :: 0 <= i < j < |order| ==> order[i] != order[j])
    && (forall i, d :: 0 <= i < |order| && DependsOn(cs, order[i], d) ==> d in order[..i])
  }

  // No component outside `started` has all its dependencies in it.
  predicate Stuck(cs: seq<Component>, started: set<string>) {
    forall i :: 0 <= i < |cs| && cs[i].tag !in started ==> exists d :: d in cs[i].deps && d !in started
  }

  // ---- The diagnosis ----

  function FirstMissing(deps: seq<string>, started: set<string>): (d: string)
    requires exists d :: d in deps && d !in started
    ensures d in deps && d !in started
    ensures exists j :: 0 <= j < |deps| && deps[j] == d && forall i :: 0 <= i < j ==> deps[i] in started
  {
    if deps[0] !in started then deps[0]
    else
      var d := FirstMissing(deps[1..], started);
      var j :| 0 <= j < |deps[1..]| && deps[1..][j] == d && forall i :: 0 <= i < j ==> deps[1..][i] in started;
      assert deps[j + 1] == d && forall i :: 0 < i < j + 1 ==> deps[i] == deps[1..][i - 1];
      d
  }

  /** lintTransport on a stuck state: it ends, it always finds a missing dependency to
      follow, and its answer is truthful: `Circular` closes a real dependency cycle of
      components that never started, `NotFound` names a dependency absent from the
      registry. */
  function Lint(cs: seq<Component>, byTag: map<string, Component>, started: set<string>, tree: seq<string>, current: Component): (r: Result)
    requires Registry(cs, byTag) && Stuck(cs, started)
    requires current in cs && tree != [] && tree[|tree| - 1] == current.tag
    requires Chain(cs, tree) && forall t :: t in tree ==> t in Tags(cs) && t !in started
    ensures r.Circular? || r.NotFound?
    ensures r.Circular? ==> && tree <= r.chain && r.again in r.chain && Chain(cs, r.chain + [r.again])
                            && forall t :: t in r.chain ==> t in Tags(cs) && t !in started
    ensures r.NotFound? ==> DependsOn(cs, r.of, r.dep) && r.dep !in byTag && r.dep !in started && r.of !in started
    decreases Tags(cs) - set t | t in tree
  {
    var dep := FirstMissing(current.deps, started);
    assert DependsOn(cs, current.tag, dep);
    assert Chain(cs, tree + [dep]);
    if dep in tree then Circular(tree, dep)
    else if dep !in byTag then NotFound(dep, current.tag)
    else
      assert dep in Tags(cs) - (set t | t in tree) && dep in tree + [dep];
      assert forall t :: t in tree ==> t in tree + [dep];
      Lint(cs, byTag, started, tree + [dep], byTag[dep])
  }

  /** The reported chain really contains a cycle: from the repeated tag to its end. */
  lemma CircularIsCycle(cs: seq<Component>, chain: seq<string>, again: string)
    requires again in chain && Chain(cs, chain + [again])
    ensures exists path: seq<string> :: Cycle(cs, path) && forall t :: t in path ==> t in chain
  {
    var k :| 0 <= k < |chain| && chain[k] == again;
    var path := chain[k..];
    forall i | 0 <= i < |path| - 1
      ensures DependsOn(cs, path[i], path[i + 1])
    {
      assert (chain + [again])[k + i] == path[i] && (chain + [again])[k + i + 1] == path[i + 1];
    }
    assert (chain + [again])[|chain| - 1] == path[|path| - 1] && (chain + [again])[|chain|] == again;
    assert Cycle(cs, path);
  }

  // ---- The loop ----

  lemma {:induction false} TagsCount(cs: seq<Component>)
    requires DistinctTags(cs)
    ensures |Tags(cs)| == |cs|
  {
    hide Tags, DistinctTags;
    if cs == [] {
      NoTags();
    } else {
      var front, last := cs[..|cs| - 1], cs[|cs| - 1];
      assert cs == front + [last];
      TagsSnoc(front, last);
      TagsCount(front);
    }
  }

  lemma NoTags()
    ensures Tags([]) == {}
  {
  }

  lemma TagsSnoc(front: seq<Component>, last: Component)
    requires DistinctTags(front + [last])
    ensures Tags(front + [last]) == Tags(front) + {last.tag} && last.tag !in Tags(front) && DistinctTags(front)
  {
    var cs := front + [last];
    assert cs[|front|] == last;
    forall i, j | 0 <= i < j < |front|
      ensures front[i].tag != front[j].tag
    {
      assert cs[i] == front[i] && cs[j] == front[j];
    }
    forall t | t in Tags(front)
      ensures t in Tags(cs) && t != last.tag
    {
      var i :| 0 <= i < |front| && front[i].tag == t;
      assert cs[i] == front[i];
    }
    forall t | t in Tags(cs)
      ensures t in Tags(front) + {last.tag}
    {
      var i :| 0 <= i < |cs| && cs[i].tag == t;
      if i < |front| { assert front[i].tag == t; }
    }
  }

  lemma Subset(a: set<string>, b: set<string>)
    requires a <= b
    ensures |a| <= |b| && (|a| == |b| ==> a == b)
  {
    assert |b| == |a| + |b - a| by { assert b == a + (b - a); }
    if |a| == |b| { assert b - a == {}; }
  }

  lemma OrderExtends(cs: seq<Component>, order: seq<string>, c: Component)
    requires DistinctTags(cs) && c in cs && Ordered(cs, order) && c.tag !in order
    requires forall d :: d in c.deps ==> d in order
    ensures Ordered(cs, order + [c.tag])
  {
    var order' := order + [c.tag];
    forall i, d | 0 <= i < |order'| && DependsOn(cs, order'[i], d)
      ensures d in order'[..i]
    {
      if i < |order| {
        assert order'[..i] == order[..i];
      } else {
        assert order'[..i] == order;
        var j :| 0 <= j < |cs| && cs[j].tag == c.tag && d in cs[j].deps;
        var k :| 0 <= k < |cs| && cs[k] == c;
        assert j == k;
      }
    }
  }

  lemma OrderedEmpty(cs: seq<Component>)
    ensures Ordered(cs, [])
  {
  }

  lemma OrderedFacts(cs: seq<Component>, order: seq<string>)
    requires Ordered(cs, order)
    ensures forall t :: t in order ==> t in Tags(cs)
    ensures forall i, j :: 0 <= i < j < |order| ==> order[i] != order[j]
  {
  }

  // What a finished startup guarantees.
  ghost predicate Outcome(cs: seq<Component>, byTag: map<string, Component>, startOk: string -> bool, r: Result, order: seq<string>) {
    match r
    case Started =>
      (forall t :: t in order <==> t in Tags(cs)) && forall t :: t in order ==> startOk(t)
    case StartFailed(tag) =>
      && order != [] && tag == order[|order| - 1] && !startOk(tag)
      && forall i :: 0 <= i < |order| - 1 ==> startOk(order[i])
    case Circular(chain, again) =>
      && again in chain && Chain(cs, chain + [again])
      && forall t :: t in chain ==> t in Tags(cs) && t !in order
    case NotFound(dep, of) =>
      DependsOn(cs, of, dep) && dep !in byTag && dep !in order && of !in order
  }

  // One sweep over the list: starts what can start, and stops at a failing Start.
  method Sweep(cs: seq<Component>, startOk: string -> bool, before: seq<string>) returns (order: seq<string>, ok: bool)
    requires DistinctTags(cs) && Ordered(cs, before) && forall t :: t in before ==> startOk(t)
    ensures Ordered(cs, order) && before <= order
    ensures ok ==> forall t :: t in order ==> startOk(t)
    ensures ok && order == before ==> Stuck(cs, set t | t in order)
    ensures !ok ==> order != [] && Outcome(cs, map[], startOk, StartFailed(order[|order| - 1]), order)
  {
    hide Ordered, DependsOn;
    order := before;
    var started := set t | t in order;
    for i := 0 to |cs|
      invariant started == set t | t in order
      invariant Ordered(cs, order) && before <= order
      invariant forall t :: t in order ==> startOk(t)
      invariant order == before ==> Stuck(cs[..i], started)
    {
      var c := cs[i];
      if c.tag !in started && forall d :: d in c.deps ==> d in started {
        OrderExtends(cs, order, c);
        started := started + {c.tag};
        order := order + [c.tag];
        if !startOk(c.tag) {
          return order, false;
        }
      }
    }
    assert cs[..|cs|] == cs;
    return order, true;
  }

  /** startTransports: `order` is the sequence of Start calls.  Whatever happens, no
      component starts twice or before its dependencies; success starts all of them; a
      failed Start stops there; a stuck startup is diagnosed truthfully, from its first
      component that did not start. */
  method StartAll(cs: seq<Component>, byTag: map<string, Component>, startOk: string -> bool)
    returns (r: Result, order: seq<string>)
    requires DistinctTags(cs) && Registry(cs, byTag)
    ensures Ordered(cs, order)
    ensures Outcome(cs, byTag, startOk, r, order)
    ensures r.Circular? || r.NotFound? ==> exists i :: Diagnosed(cs, byTag, SetOf(order), i, r)
  {
    hide Ordered, DependsOn, Chain, Stuck, Diagnosed;
    order := [];
    OrderedEmpty(cs);
    TagsCount(cs);
    while true
      invariant Ordered(cs, order) && forall t :: t in order ==> startOk(t)
      decreases |cs| - |order|
    {
      var before := order;
      var ok;
      order, ok := Sweep(cs, startOk, before);
      if !ok {
        return StartFailed(order[|order| - 1]), order;
      }
      var started := SetOf(order);
      OrderedFacts(cs, order);
      Subset(started, Tags(cs));
      OrderCount(order, started);
      if |started| == |cs| {
        return Started, order;
      }
      if order == before {
        Unstarted(cs, started);
        r := Diagnose(cs, byTag, started);
        return;
      }
    }
  }

  lemma Unstarted(cs: seq<Component>, started: set<string>)
    requires started <= Tags(cs) && started != Tags(cs)
    ensures exists i :: 0 <= i < |cs| && cs[i].tag !in started
  {
    var t :| t in Tags(cs) && t !in started;
  }

  lemma OrderCount(order: seq<string>, started: set<string>)
    requires started == set t | t in order
    requires forall i, j :: 0 <= i < j < |order| ==> order[i] != order[j]
    ensures |started| == |order|
  {
    if order != [] {
      var front, last := order[..|order| - 1], order[|order| - 1];
      OrderCount(front, set t | t in front);
      assert started == (set t | t in front) + {last};
    }
  }

  // The i-th component is the first that is not started, and r is where following its
  // dependencies leads.
  ghost predicate Diagnosed(cs: seq<Component>, byTag: map<string, Component>, started: set<string>, i: nat, r: Result) {
    && Registry(cs, byTag) && Stuck(cs, started)
    && i < |cs| && cs[i].tag !in started && (forall k :: 0 <= k < i ==> cs[k].tag in started)
    && r == Lint(cs, byTag, started, [cs[i].tag], cs[i])
  }

  method Diagnose(cs: seq<Component>, byTag: map<string, Component>, started: set<string>) returns (r: Result)
    requires Registry(cs, byTag) && Stuck(cs, started) && exists i :: 0 <= i < |cs| && cs[i].tag !in started
    ensures r.Circular? || r.NotFound?
    ensures r.Circular? ==> && r.again in r.chain && Chain(cs, r.chain + [r.again])
                            && forall t :: t in r.chain ==> t in Tags(cs) && t !in started
    ensures r.NotFound? ==> DependsOn(cs, r.of, r.dep) && r.dep !in byTag && r.dep !in started && r.of !in started
    ensures exists i :: Diagnosed(cs, byTag, started, i, r)
  {
    hide Lint;
    var i := 0;
    while cs[i].tag in started
      invariant 0 <= i < |cs| && forall k :: 0 <= k < i ==> cs[k].tag in started
      invariant exists k :: i <= k < |cs| && cs[k].tag !in started
      decreases |cs| - i
    {
      i := i + 1;
    }
    r := Lint(cs, byTag, started, [cs[i].tag], cs[i]);
    assert Diagnosed(cs, byTag, started, i, r);
  }

  // ---- Sound and complete ----

  // Along a chain of started components, start positions strictly decrease.
  lemma {:induction false} ChainDescends(cs: seq<Component>, order: seq<string>, path: seq<string>)
    requires Ordered(cs, order) && path != [] && Chain(cs, path) && forall t :: t in path ==> t in order
    ensures Position(order, path[|path| - 1]) + |path| - 1 <= Position(order, path[0])
    decreases |path|
  {
    if |path| > 1 {
      var front := path[..|path| - 1];
      forall i | 0 <= i < |front| - 1
        ensures DependsOn(cs, front[i], front[i + 1])
      {
        assert DependsOn(cs, path[i], path[i + 1]);
      }
      ChainDescends(cs, order, front);
      assert DependsOn(cs, path[|path| - 2], path[|path| - 1]);
      Earlier(cs, order, path[|path| - 2], path[|path| - 1]);
    }
  }

  lemma NoWayBack(cs: seq<Component>, order: seq<string>, path: seq<string>)
    requires Ordered(cs, order) && path != [] && Chain(cs, path) && forall t :: t in path ==> t in order
    ensures !DependsOn(cs, path[|path| - 1], path[0])
  {
    hide Ordered, DependsOn, Chain, Position;
    ChainDescends(cs, order, path);
    if DependsOn(cs, path[|path| - 1], path[0]) {
      Earlier(cs, order, path[|path| - 1], path[0]);
    }
  }

  ghost function Position(order: seq<string>, t: string): (p: nat)
    requires t in order
    ensures p < |order| && order[p] == t
  {
    var p :| 0 <= p < |order| && order[p] == t;
    p
  }

  lemma Earlier(cs: seq<Component>, order: seq<string>, t: string, d: string)
    requires Ordered(cs, order) && t in order && d in order && DependsOn(cs, t, d)
    ensures Position(order, d) < Position(order, t)
  {
    var p := Position(order, t);
    assert d in order[..p];
    var q :| 0 <= q < p && order[q] == d;
    assert Position(order, d) == q;
  }

  /** Sound and complete: when the registry holds every component and no Start fails,
      startup succeeds if and only if all dependencies are present and acyclic. */
  lemma StartsIffAcyclic(cs: seq<Component>, byTag: map<string, Component>, startOk: string -> bool, r: Result, order: seq<string>)
    requires Registry(cs, byTag) && forall t :: t in Tags(cs) ==> t in byTag
    requires forall t :: t in Tags(cs) ==> startOk(t)
    requires Ordered(cs, order) && Outcome(cs, byTag, startOk, r, order)
    ensures r.Started? <==> Closed(cs) && Acyclic(cs)
  {
    match r
    case Started =>
      forall i, d | 0 <= i < |cs| && d in cs[i].deps
        ensures d in Tags(cs)
      {
        var p := Position(order, cs[i].tag);
        assert DependsOn(cs, order[p], d);
      }
      forall path: seq<string>
        ensures !Cycle(cs, path)
      {
        if path != [] && Chain(cs, path) && forall t :: t in path ==> t in order {
          NoWayBack(cs, order, path);
        } else if Cycle(cs, path) {
          CycleWithin(cs, path);
          assert false;
        }
      }
    case StartFailed(tag) =>
    case Circular(chain, again) => CircularIsCycle(cs, chain, again);
    case NotFound(dep, of) =>
      var i :| 0 <= i < |cs| && cs[i].tag == of && dep in cs[i].deps;
      assert dep !in Tags(cs);
  }

  lemma CycleWithin(cs: seq<Component>, path: seq<string>)
    requires Cycle(cs, path)
    ensures forall t :: t in path ==> t in Tags(cs)
  {
    forall i | 0 <= i < |path|
      ensures path[i] in Tags(cs)
    {
      assert DependsOn(cs, path[i], if i + 1 < |path| then path[i + 1] else path[0]);
    }
  }

  /** The outbound manager runs the same loop over outbounds and endpoints but looks
      names up among outbounds only, so its "not found" can name a component that is
      there: outbound a waits for endpoint e, e waits for a missing x, and the report
      blames e. */
  lemma EndpointBlamed()
    ensures var cs := [Component("a", ["e"]), Component("e", ["x"])];
            var byTag := map["a" := cs[0]];
            && DistinctTags(cs) && Registry(cs, byTag) && Stuck(cs, {})
            && Lint(cs, byTag, {}, ["a"], cs[0]) == NotFound("e", "a") && "e" in Tags(cs)
  {
    var cs := [Component("a", ["e"]), Component("e", ["x"])];
    var byTag := map["a" := cs[0]];
    assert "e" in cs[0].deps && "x" in cs[1].deps;
    assert cs[0] in cs && cs[1].tag == "e";
    assert FirstMissing(["e"], {}) == "e";
    assert Tags(cs) == {"a", "e"} by { assert cs[0].tag == "a"; }
    assert "e" !in ["a"] && "e" !in byTag;
  }

  // ---- When the blamed component is there ----

  // t's first unstarted dependency is d.
  ghost predicate WaitsFor(cs: seq<Component>, started: set<string>, t: string, d: string) {
    exists c :: c in cs && c.tag == t && (exists x :: x in c.deps && x !in started) && FirstMissing(c.deps, started) == d
  }

  // The walk from one component to the next it waits for.
  ghost predicate Walk(cs: seq<Component>, started: set<string>, path: seq<string>) {
    forall i :: 0 <= i < |path| - 1 ==> WaitsFor(cs, started, path[i], path[i + 1])
  }

  // A walk without repetition through registered components only, up to its last.
  ghost predicate Plain(cs: seq<Component>, byTag: map<string, Component>, started: set<string>, path: seq<string>) {
    && Walk(cs, started, path)
    && (forall i, j :: 0 <= i < j < |path| ==> path[i] != path[j])
    && (forall i :: 0 < i < |path| - 1 ==> path[i] in byTag)
  }

  // Such a walk from `from` that ends at a component which is there but not registered.
  ghost predicate Hides(cs: seq<Component>, byTag: map<string, Component>, started: set<string>, from: string, path: seq<string>) {
    && |path| > 1 && path[0] == from && Plain(cs, byTag, started, path)
    && path[|path| - 1] in Tags(cs) && path[|path| - 1] !in byTag
  }

  /** The report blames a component that is there if and only if the walk of first unstarted
      dependencies reaches a component outside the registry before it repeats itself or
      meets a tag that is nowhere. */
  lemma BlamesPresentIff(cs: seq<Component>, byTag: map<string, Component>, started: set<string>, current: Component)
    requires DistinctTags(cs) && Registry(cs, byTag) && Stuck(cs, started) && current in cs && current.tag !in started
    ensures var r := Lint(cs, byTag, started, [current.tag], current);
            r.NotFound? && r.dep in Tags(cs) <==> exists path :: Hides(cs, byTag, started, current.tag, path)
  {
    hide Lint, WaitsFor, Tags, Stuck, Registry, DistinctTags;
    TagIn(cs, current);
    var r := Lint(cs, byTag, started, [current.tag], current);
    if r.NotFound? && r.dep in Tags(cs) {
      var path := BlameIsWalk(cs, byTag, started, [current.tag], current);
      assert Hides(cs, byTag, started, current.tag, path);
    }
    forall path | Hides(cs, byTag, started, current.tag, path)
      ensures r.NotFound? && r.dep in Tags(cs)
    {
      assert [current.tag] == path[..1];
      WalkIsBlame(cs, byTag, started, path, 1, current);
    }
  }

  /** So of what start-up reports: it blames a component that is there if and only if the walk
      from the first component that did not start reaches one outside the registry. */
  lemma ReportBlamesPresentIff(cs: seq<Component>, byTag: map<string, Component>, started: set<string>, i: nat, r: Result)
    requires DistinctTags(cs) && Diagnosed(cs, byTag, started, i, r)
    ensures r.NotFound? && r.dep in Tags(cs) <==> exists path :: Hides(cs, byTag, started, cs[i].tag, path)
  {
    hide Lint, Hides, Stuck, Registry;
    BlamesPresentIff(cs, byTag, started, cs[i]);
  }

  lemma TagIn(cs: seq<Component>, c: Component)
    requires c in cs
    ensures c.tag in Tags(cs)
  {
  }

  // One step of the walk, as Lint takes it.
  lemma LintStep(cs: seq<Component>, byTag: map<string, Component>, started: set<string>, tree: seq<string>, current: Component) returns (dep: string)
    requires Registry(cs, byTag) && Stuck(cs, started)
    requires current in cs && tree != [] && tree[|tree| - 1] == current.tag
    requires Chain(cs, tree) && forall t :: t in tree ==> t in Tags(cs) && t !in started
    ensures WaitsFor(cs, started, current.tag, dep)
    ensures Chain(cs, tree + [dep])
    ensures dep in byTag ==> dep in Tags(cs) && byTag[dep] in cs && byTag[dep].tag == dep
    ensures dep !in started
    ensures Lint(cs, byTag, started, tree, current)
         == if dep in tree then Circular(tree, dep)
            else if dep !in byTag then NotFound(dep, current.tag)
            else Lint(cs, byTag, started, tree + [dep], byTag[dep])
  {
    dep := FirstMissing(current.deps, started);
    assert DependsOn(cs, current.tag, dep);
  }

  lemma {:induction false} BlameIsWalk(cs: seq<Component>, byTag: map<string, Component>, started: set<string>, tree: seq<string>, current: Component) returns (path: seq<string>)
    requires Registry(cs, byTag) && Stuck(cs, started)
    requires current in cs && tree != [] && tree[|tree| - 1] == current.tag
    requires Chain(cs, tree) && forall t :: t in tree ==> t in Tags(cs) && t !in started
    requires Plain(cs, byTag, started, tree) && (|tree| > 1 ==> current.tag in byTag)
    requires Lint(cs, byTag, started, tree, current).NotFound?
    ensures tree < path && Plain(cs, byTag, started, path)
    ensures path[|path| - 1] == Lint(cs, byTag, started, tree, current).dep && path[|path| - 1] !in byTag
    decreases Tags(cs) - set t | t in tree
  {
    hide Lint, WaitsFor, Stuck, Registry, DistinctTags, Chain;
    var dep := LintStep(cs, byTag, started, tree, current);
    assert Plain(cs, byTag, started, tree + [dep]) || dep in tree;
    if dep in byTag {
      assert dep in Tags(cs) - (set t | t in tree) && dep in tree + [dep];
      assert forall t :: t in tree ==> t in tree + [dep];
      path := BlameIsWalk(cs, byTag, started, tree + [dep], byTag[dep]);
    } else {
      path := tree + [dep];
    }
  }

  lemma OneWait(cs: seq<Component>, started: set<string>, t: string, d: string, e: string)
    requires DistinctTags(cs) && WaitsFor(cs, started, t, d) && WaitsFor(cs, started, t, e)
    ensures d == e
  {
  }

  lemma {:induction false} WalkIsBlame(cs: seq<Component>, byTag: map<string, Component>, started: set<string>, path: seq<string>, n: nat, current: Component)
    requires DistinctTags(cs) && Registry(cs, byTag) && Stuck(cs, started)
    requires 0 < n < |path| && path[n - 1] == current.tag && current in cs
    requires Chain(cs, path[..n]) && forall t :: t in path[..n] ==> t in Tags(cs) && t !in started
    requires Hides(cs, byTag, started, path[0], path)
    ensures Lint(cs, byTag, started, path[..n], current) == NotFound(path[|path| - 1], path[|path| - 2])
    decreases |path| - n
  {
    hide Lint, WaitsFor, Tags, Stuck, Registry, DistinctTags, Chain;
    var tree := path[..n];
    var dep := LintStep(cs, byTag, started, tree, current);
    assert WaitsFor(cs, started, path[n - 1], path[n - 1 + 1]);
    OneWait(cs, started, current.tag, dep, path[n]);
    assert path[..n + 1] == tree + [dep];
    if n + 1 < |path| {
      assert dep in byTag;
      WalkIsBlame(cs, byTag, started, path, n + 1, byTag[dep]);
    }
  }

  // Every dependency that is there is registered.
  predicate NoneHidden(cs: seq<Component>, byTag: map<string, Component>) {
    forall c, d :: c in cs && d in c.deps && d in Tags(cs) ==> d in byTag
  }

  /** A configuration whose dependencies on present components are all registered is always
      diagnosed truthfully: what is reported missing is nowhere. */
  lemma TruthfulWhenRegistered(cs: seq<Component>, byTag: map<string, Component>, startOk: string -> bool, r: Result, order: seq<string>)
    requires Ordered(cs, order) && Outcome(cs, byTag, startOk, r, order) && NoneHidden(cs, byTag)
    ensures r.NotFound? ==> r.dep !in Tags(cs)
  {
    if r.NotFound? {
      var i :| 0 <= i < |cs| && cs[i].tag == r.of && r.dep in cs[i].deps;
      assert cs[i] in cs;
    }
  }
}
