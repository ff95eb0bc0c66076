/** The panic-reachability gate over a call graph: a root's closure, what it reports, and what a cut hides. */
module Reach {
  import opened Parts

  datatype Edge = Edge(to: nat, site: int)

  /** A function's resolved calls and its calls through a register. */
  datatype Func = Func(edges: seq<Edge>, indirect: seq<int>)

  /** A program; `unresolved` are the branches to an unknown target, with the function each is in. */
  datatype Program = Program(funcs: seq<Func>, unresolved: seq<(nat, int)>) {
    predicate Wf() {
      forall i, k :: 0 <= i < |funcs| && 0 <= k < |funcs[i].edges| ==> funcs[i].edges[k].to < |funcs|
    }
  }

  /** What a closure is taken over: a root, the panic functions and the cut edges. */
  datatype Query = Query(g: Program, root: nat, panics: set<nat>, cuts: set<(nat, nat)>) {
    predicate Wf() {
      g.Wf() && root < |g.funcs|
    }

    predicate Calls(a: nat, e: Edge) {
      a < |g.funcs| && e in g.funcs[a].edges && (a, e.to) !in cuts
    }

    /** A panic function is terminal, unless it is the root. */
    predicate Expands(a: nat) {
      a !in panics || a == root
    }
  }

  // ---- paths ----

  /** A call path from the root over uncut edges, with the edge of each hop. */
  predicate IsPath(q: Query, path: seq<Edge>) {
    path == [] || (IsPath(q, path[..|path| - 1]) && q.Calls(Ends(q, path[..|path| - 1]), path[|path| - 1]))
  }

  function Ends(q: Query, path: seq<Edge>): nat {
    if path == [] then q.root else path[|path| - 1].to
  }

  /** A path whose inner functions are not panics. */
  predicate IsOpen(q: Query, path: seq<Edge>) {
    path == [] || (IsOpen(q, path[..|path| - 1]) && q.Expands(Ends(q, path[..|path| - 1])))
  }

  predicate Walk(q: Query, path: seq<Edge>) {
    IsPath(q, path) && IsOpen(q, path)
  }

  ghost predicate Reached(q: Query, v: nat) {
    exists path :: Walk(q, path) && Ends(q, path) == v
  }

  /** A path that meets a panic function has a part that stops at the first one it meets. */
  lemma {:induction false} StopsAtPanic(q: Query, path: seq<Edge>) returns (open: seq<Edge>)
    requires IsPath(q, path)
    ensures Walk(q, open) && (open == path || (Ends(q, open) in q.panics && Ends(q, open) != q.root))
  {
    if path == [] {
      open := [];
    } else {
      open := StopsAtPanic(q, path[..|path| - 1]);
      if open == path[..|path| - 1] && q.Expands(Ends(q, open)) {
        open := path;
      }
    }
  }

  lemma WalkOn(q: Query, path: seq<Edge>, e: Edge)
    requires Walk(q, path) && q.Expands(Ends(q, path)) && q.Calls(Ends(q, path), e)
    ensures Walk(q, path + [e]) && Ends(q, path + [e]) == e.to
  {
    assert (path + [e])[..|path|] == path;
  }

  // ---- the closure ----

  datatype Hop = Hop(from: nat, edge: Edge)

  /** The closure as the search builds it: functions in the order met, the hop each was first met by, its distance. */
  datatype Tree = Tree(order: seq<nat>, parent: map<nat, Option<Hop>>, depth: map<nat, nat>)

  /** Each function met is listed once, with its hop and its distance. */
  ghost predicate Listed(t: Tree) {
    && t.order != [] && t.depth.Keys == t.parent.Keys
    && (forall v :: v in t.order <==> v in t.parent)
    && (forall i, j :: 0 <= i < j < |t.order| ==> t.order[i] != t.order[j])
  }

  /** It was met by a real, uncut call from one a step nearer the root. */
  ghost predicate Hops(q: Query, t: Tree)
    requires Listed(t)
  {
    forall v {:trigger HopOk(q, t, v)} :: v in t.parent ==> v < |q.g.funcs| && HopOk(q, t, v)
  }

  /** Nearer functions were met earlier. */
  ghost predicate Levels(t: Tree)
    requires Listed(t)
  {
    forall i, j :: 0 <= i < j < |t.order| ==> t.depth[t.order[i]] <= t.depth[t.order[j]]
  }

  ghost predicate Grown(q: Query, t: Tree) {
    q.Wf() && Listed(t) && t.order[0] == q.root && Hops(q, t) && Levels(t)
  }

  ghost predicate HopOk(q: Query, t: Tree, v: nat)
    requires v in t.parent && t.depth.Keys == t.parent.Keys
  {
    match t.parent[v]
    case None => v == q.root && t.depth[v] == 0
    case Some(h) =>
      && v != q.root && h.edge.to == v && q.Calls(h.from, h.edge) && q.Expands(h.from)
      && h.from in t.parent && t.depth[v] == t.depth[h.from] + 1
  }

  /** The first `n` functions met have had their calls followed. */
  ghost predicate Followed(q: Query, t: Tree, n: nat)
    requires Listed(t) && n <= |t.order|
  {
    forall i, e :: 0 <= i < n && q.Calls(t.order[i], e) && q.Expands(t.order[i]) ==>
      e.to in t.parent && t.depth[e.to] <= t.depth[t.order[i]] + 1
  }

  /** The path the parents give, innermost hop last. */
  function Rendered(q: Query, t: Tree, v: nat): (path: seq<Edge>)
    requires Grown(q, t) && v in t.parent
    ensures Walk(q, path) && Ends(q, path) == v && |path| == t.depth[v]
    decreases t.depth[v]
  {
    assert HopOk(q, t, v);
    match t.parent[v]
    case None => []
    case Some(h) =>
      var path := Rendered(q, t, h.from);
      WalkOn(q, path, h.edge);
      path + [h.edge]
  }

  /** A finished closure holds every function some walk reaches, no farther from the root than that walk is long. */
  lemma {:induction false} NoneShorter(q: Query, t: Tree, path: seq<Edge>)
    requires Grown(q, t) && Followed(q, t, |t.order|) && Walk(q, path)
    ensures Ends(q, path) in t.parent && t.depth[Ends(q, path)] <= |path|
  {
    if path == [] {
      assert t.order[0] in t.parent && HopOk(q, t, t.order[0]);
    } else {
      NoneShorter(q, t, path[..|path| - 1]);
      var v := Ends(q, path[..|path| - 1]);
      var i :| 0 <= i < |t.order| && t.order[i] == v;
      assert q.Calls(t.order[i], path[|path| - 1]);
    }
  }

  /** The closure is the functions some walk reaches, each with a shortest walk to it. */
  lemma ClosureIsReached(q: Query, t: Tree, v: nat)
    requires Grown(q, t) && Followed(q, t, |t.order|)
    ensures v in t.order <==> Reached(q, v)
    ensures v in t.order ==> forall path :: Walk(q, path) && Ends(q, path) == v ==> |Rendered(q, t, v)| <= |path|
  {
    if v in t.order {
      var path := Rendered(q, t, v);
      assert Walk(q, path);
    }
    forall path | Walk(q, path) && Ends(q, path) == v
      ensures v in t.parent && t.depth[v] <= |path|
    {
      NoneShorter(q, t, path);
    }
  }

  // ---- the gate's promise ----

  /** Nothing to report: no uncut path from the root meets a panic or anything that hides its target. */
  ghost predicate Clean(q: Query) {
    forall path :: IsPath(q, path) ==>
      var v := Ends(q, path);
      && (v in q.panics ==> v == q.root)
      && (v < |q.g.funcs| ==> q.g.funcs[v].indirect == [])
      && forall u :: u in q.g.unresolved ==> u.0 != v
  }

  datatype Finding =
    | Panic(p: nat, sites: seq<Hop>)
    | Indirect(at: seq<(nat, int)>)
    | Unresolved(at: seq<(nat, int)>)

  /** What the gate finds in a closure. */
  ghost predicate Blames(q: Query, order: seq<nat>) {
    exists v :: v in order &&
      ((v in q.panics && v != q.root) || (v < |q.g.funcs| && q.g.funcs[v].indirect != []) || exists u :: u in q.g.unresolved && u.0 == v)
  }

  /** The gate is sound and complete. */
  lemma BlamesIffNotClean(q: Query, t: Tree)
    requires Grown(q, t) && Followed(q, t, |t.order|)
    ensures Blames(q, t.order) <==> !Clean(q)
  {
    if Blames(q, t.order) {
      var v :| v in t.order && ((v in q.panics && v != q.root) || (v < |q.g.funcs| && q.g.funcs[v].indirect != []) || exists u :: u in q.g.unresolved && u.0 == v);
      var path := Rendered(q, t, v);
      assert IsPath(q, path) && Ends(q, path) == v;
    } else {
      forall path | IsPath(q, path)
        ensures var v := Ends(q, path);
                && (v in q.panics ==> v == q.root)
                && (v < |q.g.funcs| ==> q.g.funcs[v].indirect == [])
                && forall u :: u in q.g.unresolved ==> u.0 != v
      {
        var open := StopsAtPanic(q, path);
        NoneShorter(q, t, open);
        assert Ends(q, open) in t.order;
      }
    }
  }

  // ---- the search ----

  function Met(t: Tree, h: Hop): Tree
    requires h.from in t.depth
  {
    Tree(t.order + [h.edge.to], t.parent[h.edge.to := Some(h)], t.depth[h.edge.to := t.depth[h.from] + 1])
  }

  /** No function met is more than a step beyond the one being followed. */
  ghost predicate Near(t: Tree, at: nat)
    requires Listed(t) && at < |t.order|
  {
    forall i :: 0 <= i < |t.order| ==> t.depth[t.order[i]] <= t.depth[t.order[at]] + 1
  }

  lemma MetListed(t: Tree, h: Hop)
    requires Listed(t) && h.from in t.parent && h.edge.to !in t.parent
    ensures var n := Met(t, h);
            && Listed(n) && |n.order| == |t.order| + 1 && n.order[|t.order|] == h.edge.to && n.depth[h.edge.to] == t.depth[h.from] + 1
            && forall i :: 0 <= i < |t.order| ==> n.order[i] == t.order[i] && n.depth[t.order[i]] == t.depth[t.order[i]]
  {
    assert h.edge.to !in t.order;
    assert forall i :: 0 <= i < |t.order| ==> t.order[i] in t.order;
  }

  lemma MetHops(q: Query, t: Tree, h: Hop)
    requires q.Wf() && Listed(t) && Hops(q, t) && h.from in t.parent && h.edge.to !in t.parent && q.root in t.parent
    requires q.Calls(h.from, h.edge) && q.Expands(h.from)
    ensures Listed(Met(t, h)) && Hops(q, Met(t, h))
  {
    MetListed(t, h);
    var n := Met(t, h);
    forall v | v in n.parent
      ensures v < |q.g.funcs| && HopOk(q, n, v)
    {
      if v != h.edge.to {
        assert HopOk(q, t, v);
      }
    }
  }

  lemma MetGrows(q: Query, t: Tree, at: nat, e: Edge)
    requires Grown(q, t) && at < |t.order| && Followed(q, t, at) && Near(t, at)
    requires q.Calls(t.order[at], e) && q.Expands(t.order[at]) && e.to !in t.parent
    ensures var n := Met(t, Hop(t.order[at], e)); Grown(q, n) && Followed(q, n, at) && Near(n, at)
  {
    assert t.order[at] in t.order && t.order[0] in t.order;
    MetListed(t, Hop(t.order[at], e));
    MetHops(q, t, Hop(t.order[at], e));
    MetFollowed(q, t, at, Hop(t.order[at], e));
    MetLevels(t, at, Hop(t.order[at], e));
    hide Listed, Hops, Levels, Near, Followed, Query.Calls, Query.Expands, Query.Wf, Met;
  }

  lemma MetLevels(t: Tree, at: nat, h: Hop)
    requires Listed(t) && at < |t.order| && h.from == t.order[at] && h.from in t.parent && h.edge.to !in t.parent
    requires Levels(t) && Near(t, at)
    ensures Listed(Met(t, h)) && Levels(Met(t, h)) && at < |Met(t, h).order| && Near(Met(t, h), at)
  {
    MetListed(t, h);
    var n := Met(t, h);
    assert Listed(n) && |n.order| == |t.order| + 1;
    hide Listed, Met;
  }

  lemma MetFollowed(q: Query, t: Tree, at: nat, h: Hop)
    requires Listed(t) && at < |t.order| && Followed(q, t, at) && h.from in t.parent && h.edge.to !in t.parent
    ensures Listed(Met(t, h)) && Followed(q, Met(t, h), at)
  {
    MetListed(t, h);
    var n := Met(t, h);
    forall i, f | 0 <= i < at && q.Calls(n.order[i], f) && q.Expands(n.order[i])
      ensures f.to in n.parent && n.depth[f.to] <= n.depth[n.order[i]] + 1
    {
      assert q.Calls(t.order[i], f);
      assert f.to in t.parent && f.to in t.depth.Keys;
    }
  }

  lemma {:induction false} Distinct(s: seq<nat>, n: nat)
    requires (forall i :: 0 <= i < |s| ==> s[i] < n) && forall i, j :: 0 <= i < j < |s| ==> s[i] != s[j]
    ensures |s| <= n
  {
    assert s != [] ==> s[0] < n;
    if n > 0 {
      if i :| 0 <= i < |s| && s[i] == n - 1 {
        Distinct(s[..i] + s[i + 1..], n - 1);
      } else {
        Distinct(s, n - 1);
      }
    }
  }

  lemma OrderBounded(q: Query, t: Tree)
    requires Grown(q, t)
    ensures |t.order| <= |q.g.funcs|
  {
    forall i | 0 <= i < |t.order|
      ensures t.order[i] < |q.g.funcs|
    {
      assert t.order[i] in t.order && HopOk(q, t, t.order[i]);
    }
    Distinct(t.order, |q.g.funcs|);
  }

  /** The breadth-first closure of a root. */
  method Closure(q: Query) returns (order: seq<nat>, parent: map<nat, Option<Hop>>, ghost depth: map<nat, nat>)
    requires q.Wf()
    ensures Grown(q, Tree(order, parent, depth)) && Followed(q, Tree(order, parent, depth), |order|)
  {
    order, parent, depth := [q.root], map[q.root := None], map[q.root := 0];
    var qi := 0;
    assert HopOk(q, Tree(order, parent, depth), q.root);
    assert Grown(q, Tree(order, parent, depth)) && Followed(q, Tree(order, parent, depth), 0) && Near(Tree(order, parent, depth), 0);
    hide Hops, Levels, HopOk, Followed, Near;
    while qi < |order|
      invariant 0 <= qi <= |order| && Grown(q, Tree(order, parent, depth)) && Followed(q, Tree(order, parent, depth), qi)
      invariant qi < |order| ==> Near(Tree(order, parent, depth), qi)
      decreases |q.g.funcs| - qi
    {
      OrderBounded(q, Tree(order, parent, depth));
      var cur := order[qi];
      FollowReady(q, Tree(order, parent, depth), qi);
      if cur !in q.panics || cur == q.root {
        order, parent, depth := Follow(q, qi, order, parent, depth);
        FollowedNext(q, Tree(order, parent, depth), qi);
      }
      qi := qi + 1;
    }
  }

  lemma FollowReady(q: Query, t: Tree, at: nat)
    requires Grown(q, t) && at < |t.order| && Followed(q, t, at) && Near(t, at)
    ensures Searching(q, t, at, t.order[at])
    ensures !q.Expands(t.order[at]) ==> Followed(q, t, at + 1) && (at + 1 < |t.order| ==> Near(t, at + 1))
  {
    assert t.order[at] in t.order && HopOk(q, t, t.order[at]);
    hide Hops, HopOk;
  }

  /** The calls of the function at `at`, each new callee met once. */
  method Follow(q: Query, at: nat, order0: seq<nat>, parent0: map<nat, Option<Hop>>, ghost depth0: map<nat, nat>)
    returns (order: seq<nat>, parent: map<nat, Option<Hop>>, ghost depth: map<nat, nat>)
    requires at < |order0| && q.Expands(order0[at])
    requires Searching(q, Tree(order0, parent0, depth0), at, order0[at])
    ensures Searching(q, Tree(order, parent, depth), at, order0[at])
    ensures DoneTo(q, Tree(order, parent, depth), order0[at], |q.g.funcs[order0[at]].edges|)
  {
    order, parent, depth := order0, parent0, depth0;
    var cur := order[at];
    var edges := q.g.funcs[cur].edges;
    var k := 0;
    hide Grown, Followed, Near;
    while k < |edges|
      invariant 0 <= k <= |edges|
      invariant Searching(q, Tree(order, parent, depth), at, cur) && DoneTo(q, Tree(order, parent, depth), cur, k)
    {
      var e := edges[k];
      if (cur, e.to) !in q.cuts && e.to !in parent {
        MetNext(q, Tree(order, parent, depth), at, k);
        order, parent, depth := order + [e.to], parent[e.to := Some(Hop(cur, e))], depth[e.to := depth[cur] + 1];
      } else {
        SeenNext(q, Tree(order, parent, depth), at, k);
      }
      k := k + 1;
    }
  }

  ghost predicate Searching(q: Query, t: Tree, at: nat, u: nat) {
    Grown(q, t) && at < |t.order| && t.order[at] == u && Followed(q, t, at) && Near(t, at)
      && u in t.parent && u in t.depth && u < |q.g.funcs|
  }

  /** The first `k` calls of `u` lead to functions met, none more than a step farther. */
  ghost predicate DoneTo(q: Query, t: Tree, u: nat, k: nat) {
    u < |q.g.funcs| && k <= |q.g.funcs[u].edges| && u in t.depth &&
      forall j :: 0 <= j < k ==>
        var e := q.g.funcs[u].edges[j];
        (u, e.to) in q.cuts || (e.to in t.parent && e.to in t.depth && t.depth[e.to] <= t.depth[u] + 1)
  }

  lemma MetNext(q: Query, t: Tree, at: nat, k: nat)
    requires at < |t.order| && Searching(q, t, at, t.order[at]) && DoneTo(q, t, t.order[at], k)
    requires q.Expands(t.order[at]) && k < |q.g.funcs[t.order[at]].edges|
    requires var e := q.g.funcs[t.order[at]].edges[k]; e.to !in t.parent && (t.order[at], e.to) !in q.cuts
    ensures var u := t.order[at]; var n := Met(t, Hop(u, q.g.funcs[u].edges[k])); Searching(q, n, at, u) && DoneTo(q, n, u, k + 1)
  {
    var u := t.order[at];
    MetGrows(q, t, at, q.g.funcs[u].edges[k]);
    MetListed(t, Hop(u, q.g.funcs[u].edges[k]));
    hide Hops, Levels, Followed, Near;
  }

  lemma SeenNext(q: Query, t: Tree, at: nat, k: nat)
    requires at < |t.order| && Searching(q, t, at, t.order[at]) && DoneTo(q, t, t.order[at], k)
    requires k < |q.g.funcs[t.order[at]].edges|
    requires var e := q.g.funcs[t.order[at]].edges[k]; e.to in t.parent || (t.order[at], e.to) in q.cuts
    ensures DoneTo(q, t, t.order[at], k + 1)
  {
    var e := q.g.funcs[t.order[at]].edges[k];
    if e.to in t.parent {
      var i :| 0 <= i < |t.order| && t.order[i] == e.to;
    }
    hide Hops, Levels, Followed;
  }

  lemma FollowedNext(q: Query, t: Tree, at: nat)
    requires at < |t.order| && Searching(q, t, at, t.order[at])
    requires DoneTo(q, t, t.order[at], |q.g.funcs[t.order[at]].edges|)
    ensures Grown(q, t) && Followed(q, t, at + 1) && Near(t, at) && (at + 1 < |t.order| ==> Near(t, at + 1))
  {
    forall e | q.Calls(t.order[at], e) && q.Expands(t.order[at])
      ensures e.to in t.parent && e.to in t.depth && t.depth[e.to] <= t.depth[t.order[at]] + 1
    {
      var k :| 0 <= k < |q.g.funcs[t.order[at]].edges| && q.g.funcs[t.order[at]].edges[k] == e;
    }
    hide Hops;
  }

  lemma RenderedStep(q: Query, t: Tree, v: nat, path: seq<Edge>)
    requires Grown(q, t) && v in t.parent
    ensures v in t.depth && (t.parent[v].None? ==> Rendered(q, t, v) == [])
    ensures t.parent[v].Some? ==>
            var h := t.parent[v].value;
            h.from in t.parent && h.from in t.depth && t.depth[h.from] < t.depth[v]
            && Rendered(q, t, h.from) + ([h.edge] + path) == Rendered(q, t, v) + path
  {
    assert HopOk(q, t, v);
    hide Walk;
    if t.parent[v].Some? {
      var h := t.parent[v].value;
      assert Rendered(q, t, h.from) + ([h.edge] + path) == Rendered(q, t, h.from) + [h.edge] + path;
    }
  }

  /** The path to `v` read back along the parents, innermost hop last. */
  method Render(q: Query, order: seq<nat>, parent: map<nat, Option<Hop>>, ghost depth: map<nat, nat>, v: nat) returns (path: seq<Edge>)
    requires Grown(q, Tree(order, parent, depth)) && v in parent
    ensures path == Rendered(q, Tree(order, parent, depth), v)
  {
    hide Grown, Walk, Rendered;
    ghost var t := Tree(order, parent, depth);
    path := [];
    var cur := v;
    RenderedStep(q, t, cur, path);
    assert Rendered(q, t, v) + [] == Rendered(q, t, v);
    while parent[cur].Some?
      invariant cur in parent && cur in depth
      invariant Rendered(q, t, cur) + path == Rendered(q, t, v)
      decreases depth[cur]
    {
      var h := parent[cur].value;
      RenderedStep(q, t, cur, path);
      path := [h.edge] + path;
      cur := h.from;
      RenderedStep(q, t, cur, path);
    }
    RenderedStep(q, t, cur, path);
    assert [] + path == path;
  }

  // ---- the report ----

  /** A call site of `p` inside the closure. */
  predicate IsSite(q: Query, order: seq<nat>, p: nat, h: Hop) {
    h.from in order && h.from != p && h.edge.to == p && q.Calls(h.from, h.edge)
  }

  /** Every call site of `p` in the closure, not only the one on the shortest path. */
  method Sites(q: Query, order: seq<nat>, p: nat) returns (sites: seq<Hop>)
    requires q.Wf() && forall i :: 0 <= i < |order| ==> order[i] < |q.g.funcs|
    ensures forall h :: h in sites <==> IsSite(q, order, p, h)
  {
    sites := [];
    var i := 0;
    while i < |order|
      invariant 0 <= i <= |order|
      invariant forall h :: h in sites <==> IsSite(q, order[..i], p, h)
    {
      assert order[..i + 1] == order[..i] + [order[i]];
      var more := SitesIn(q, order[i], p);
      sites := sites + more;
      i := i + 1;
    }
    assert order[..i] == order;
  }

  method SitesIn(q: Query, u: nat, p: nat) returns (sites: seq<Hop>)
    requires q.Wf() && u < |q.g.funcs|
    ensures forall h :: h in sites <==> h.from == u && u != p && h.edge.to == p && q.Calls(u, h.edge)
  {
    sites := [];
    if u == p {
      return;
    }
    var edges := q.g.funcs[u].edges;
    var k := 0;
    while k < |edges|
      invariant 0 <= k <= |edges|
      invariant forall h :: h in sites <==> h.from == u && h.edge.to == p && h.edge in edges[..k] && (u, p) !in q.cuts
    {
      assert edges[..k + 1] == edges[..k] + [edges[k]];
      if edges[k].to == p && (u, p) !in q.cuts {
        sites := sites + [Hop(u, edges[k])];
      }
      k := k + 1;
    }
    assert edges[..k] == edges;
  }

  method IndirectIn(q: Query, order: seq<nat>) returns (at: seq<(nat, int)>)
    requires forall i :: 0 <= i < |order| ==> order[i] < |q.g.funcs|
    ensures forall x :: x in at <==> x.0 in order && x.0 < |q.g.funcs| && x.1 in q.g.funcs[x.0].indirect
  {
    at := [];
    var i := 0;
    while i < |order|
      invariant 0 <= i <= |order|
      invariant forall x :: x in at <==> x.0 in order[..i] && x.0 < |q.g.funcs| && x.1 in q.g.funcs[x.0].indirect
    {
      var u, sites := order[i], q.g.funcs[order[i]].indirect;
      assert order[..i + 1] == order[..i] + [u];
      var more := seq(|sites|, k requires 0 <= k < |sites| => (u, sites[k]));
      forall x: (nat, int) | x.0 == u && x.1 in sites
        ensures x in more
      {
        var k :| 0 <= k < |sites| && sites[k] == x.1;
        assert more[k] == x;
      }
      at := at + more;
      i := i + 1;
    }
    assert order[..i] == order;
  }

  method UnresolvedIn(q: Query, parent: map<nat, Option<Hop>>) returns (at: seq<(nat, int)>)
    ensures forall x :: x in at <==> x in q.g.unresolved && x.0 in parent
  {
    at := [];
    var i := 0;
    while i < |q.g.unresolved|
      invariant 0 <= i <= |q.g.unresolved|
      invariant forall x :: x in at <==> x in q.g.unresolved[..i] && x.0 in parent
    {
      var x := q.g.unresolved[i];
      assert q.g.unresolved[..i + 1] == q.g.unresolved[..i] + [x];
      if x.0 in parent {
        at := at + [x];
      }
      i := i + 1;
    }
  }

  /** The panics among the functions met, in the order met. */
  function PanicsOf(q: Query, order: seq<nat>): seq<nat> {
    if order == [] then []
    else
      var p := order[|order| - 1];
      PanicsOf(q, order[..|order| - 1]) + if p in q.panics && p != q.root then [p] else []
  }

  lemma {:induction false} PanicsAre(q: Query, order: seq<nat>, p: nat)
    ensures p in PanicsOf(q, order) <==> p in order && p in q.panics && p != q.root
  {
    if order != [] {
      PanicsAre(q, order[..|order| - 1], p);
      assert order == order[..|order| - 1] + [order[|order| - 1]];
    }
  }

  predicate Reports(q: Query, order: seq<nat>, found: seq<Finding>) {
    && |found| == |PanicsOf(q, order)|
    && forall i :: 0 <= i < |found| ==> found[i].Panic? && found[i].p == PanicsOf(q, order)[i]
  }

  /** The panics of a closure, each with all its call sites. */
  method PanicsIn(q: Query, order: seq<nat>) returns (found: seq<Finding>)
    requires q.Wf() && forall i :: 0 <= i < |order| ==> order[i] < |q.g.funcs|
    ensures forall f :: f in found ==> f.Panic? && forall h :: h in f.sites <==> IsSite(q, order, f.p, h)
    ensures Reports(q, order, found)
  {
    found := [];
    var i := 0;
    while i < |order|
      invariant 0 <= i <= |order|
      invariant forall f :: f in found ==> f.Panic? && forall h :: h in f.sites <==> IsSite(q, order, f.p, h)
      invariant Reports(q, order[..i], found)
    {
      var p := order[i];
      assert order[..i + 1] == order[..i] + [p];
      if p in q.panics && p != q.root {
        var sites := Sites(q, order, p);
        found := found + [Panic(p, sites)];
      }
      i := i + 1;
    }
    assert order[..i] == order;
  }

  ghost predicate Named(found: seq<Finding>, p: nat) {
    exists i :: 0 <= i < |found| && found[i].Panic? && found[i].p == p
  }

  ghost predicate ReachedSite(q: Query, p: nat, h: Hop) {
    Reached(q, h.from) && h.from != p && h.edge.to == p && q.Calls(h.from, h.edge)
  }

  /** The gate over one root: silent exactly when no uncut path from it can panic or hide where it goes; otherwise every
      panic it can reach with every call site in the closure, and every call it cannot follow. */
  method Gate(q: Query) returns (panics: seq<Finding>, indirect: seq<(nat, int)>, unresolved: seq<(nat, int)>)
    requires q.Wf()
    ensures panics == [] && indirect == [] && unresolved == [] <==> Clean(q)
    ensures forall i :: 0 <= i < |panics| ==> panics[i].Panic?
    ensures forall p :: p in q.panics && p != q.root && Reached(q, p) <==> Named(panics, p)
    ensures forall f, h :: f in panics ==> f.Panic? && (h in f.sites <==> ReachedSite(q, f.p, h))
    ensures forall x :: x in indirect <==> Reached(q, x.0) && x.0 < |q.g.funcs| && x.1 in q.g.funcs[x.0].indirect
    ensures forall x :: x in unresolved <==> x in q.g.unresolved && Reached(q, x.0)
  {
    var order, parent;
    ghost var depth;
    order, parent, depth := Closure(q);
    ghost var t := Tree(order, parent, depth);
    forall i | 0 <= i < |order|
      ensures order[i] < |q.g.funcs|
    {
      assert order[i] in order && HopOk(q, t, order[i]);
    }
    forall v
      ensures v in order <==> Reached(q, v)
    {
      ClosureIsReached(q, t, v);
    }
    BlamesIffNotClean(q, t);
    hide Clean, Grown, Followed, Reached, Blames, Reports;
    panics := PanicsIn(q, order);
    indirect := IndirectIn(q, order);
    unresolved := UnresolvedIn(q, parent);
    ReportsBlame(q, order, panics, indirect, unresolved);
    PanicsReached(q, order, panics);
  }

  lemma PanicsReached(q: Query, order: seq<nat>, panics: seq<Finding>)
    requires Reports(q, order, panics) && forall v :: v in order <==> Reached(q, v)
    ensures forall p :: p in q.panics && p != q.root && Reached(q, p) <==> Named(panics, p)
  {
    hide Reached;
    forall p
      ensures p in q.panics && p != q.root && Reached(q, p) <==> Named(panics, p)
    {
      PanicsAre(q, order, p);
      var found := PanicsOf(q, order);
      if p in found {
        var i :| 0 <= i < |found| && found[i] == p;
        assert panics[i].p == p;
      }
      if Named(panics, p) {
        var i :| 0 <= i < |panics| && panics[i].Panic? && panics[i].p == p;
        assert found[i] in found;
      }
    }
  }

  /** A report is empty exactly when there is nothing to blame. */
  lemma ReportsBlame(q: Query, order: seq<nat>, panics: seq<Finding>, indirect: seq<(nat, int)>, unresolved: seq<(nat, int)>)
    requires Reports(q, order, panics)
    requires forall x :: x in indirect <==> x.0 in order && x.0 < |q.g.funcs| && x.1 in q.g.funcs[x.0].indirect
    requires forall x :: x in unresolved <==> x in q.g.unresolved && x.0 in order
    ensures panics == [] && indirect == [] && unresolved == [] <==> !Blames(q, order)
  {
    if Blames(q, order) {
      var v :| v in order && ((v in q.panics && v != q.root) || (v < |q.g.funcs| && q.g.funcs[v].indirect != []) || exists u :: u in q.g.unresolved && u.0 == v);
      PanicsAre(q, order, v);
      if v in q.panics && v != q.root {
        assert PanicsOf(q, order) != [];
      } else if v < |q.g.funcs| && q.g.funcs[v].indirect != [] {
        assert (v, q.g.funcs[v].indirect[0]) in indirect;
      } else {
        var u :| u in q.g.unresolved && u.0 == v;
        assert u in unresolved;
      }
    }
    if panics != [] {
      PanicsAre(q, order, panics[0].p);
    }
    if indirect != [] {
      var x := indirect[0];
      assert x in indirect && x.0 in order && q.g.funcs[x.0].indirect != [];
    }
    if unresolved != [] {
      var u := unresolved[0];
      assert u in unresolved && u.0 in order;
    }
  }

  // ---- what a cut hides ----

  /** A matched cut edge, and a panic call site. */
  datatype Cut = Cut(from: nat, to: nat, site: int)
  datatype Site = Site(from: nat, site: int, to: nat)

  /** A call chain from a cut's callee through functions that are no panics; other cuts do not apply. */
  predicate IsChain(g: Program, panics: set<nat>, matched: seq<Cut>, chain: seq<nat>) {
    chain != [] &&
    var v := chain[|chain| - 1];
    && v < |g.funcs| && v !in panics
    && if |chain| == 1 then exists i :: 0 <= i < |matched| && matched[i].to == v
       else
         IsChain(g, panics, matched, chain[..|chain| - 1]) &&
         var u := chain[|chain| - 2];
         u < |g.funcs| && exists k :: 0 <= k < |g.funcs[u].edges| && g.funcs[u].edges[k].to == v
  }

  ghost predicate Behind(g: Program, panics: set<nat>, matched: seq<Cut>, v: nat) {
    exists chain :: IsChain(g, panics, matched, chain) && chain[|chain| - 1] == v
  }

  /** A panic call site a cut hides: the cut edge itself, or one in a function behind it. */
  ghost predicate Hides(g: Program, panics: set<nat>, matched: seq<Cut>, s: Site) {
    s.to in panics &&
    (Cut(s.from, s.to, s.site) in matched
     || (Behind(g, panics, matched, s.from) && s.from < |g.funcs| && Edge(s.to, s.site) in g.funcs[s.from].edges))
  }

  lemma BehindNext(g: Program, panics: set<nat>, matched: seq<Cut>, u: nat, k: nat)
    requires Behind(g, panics, matched, u) && u < |g.funcs| && k < |g.funcs[u].edges|
    requires var v := g.funcs[u].edges[k].to; v < |g.funcs| && v !in panics
    ensures Behind(g, panics, matched, g.funcs[u].edges[k].to)
  {
    var chain :| IsChain(g, panics, matched, chain) && chain[|chain| - 1] == u;
    var v := g.funcs[u].edges[k].to;
    assert (chain + [v])[..|chain|] == chain;
    assert IsChain(g, panics, matched, chain + [v]);
  }

  lemma BehindFirst(g: Program, panics: set<nat>, matched: seq<Cut>, i: nat)
    requires i < |matched| && matched[i].to < |g.funcs| && matched[i].to !in panics
    ensures Behind(g, panics, matched, matched[i].to)
  {
    assert IsChain(g, panics, matched, [matched[i].to]);
  }

  /** A set with the cut's callees, closed under calls to functions that are no panics, holds everything behind the cut. */
  lemma {:induction false} ChainInside(g: Program, panics: set<nat>, matched: seq<Cut>, seen: set<nat>, chain: seq<nat>)
    requires IsChain(g, panics, matched, chain)
    requires forall i :: 0 <= i < |matched| && matched[i].to !in panics ==> matched[i].to in seen
    requires forall u, k :: u in seen && u < |g.funcs| && 0 <= k < |g.funcs[u].edges| && g.funcs[u].edges[k].to !in panics ==> g.funcs[u].edges[k].to in seen
    ensures chain[|chain| - 1] in seen
  {
    if |chain| > 1 {
      ChainInside(g, panics, matched, seen, chain[..|chain| - 1]);
    }
  }

  /** The search's state: functions seen, of which those not on the stack are done. */
  ghost predicate Swept(g: Program, panics: set<nat>, matched: seq<Cut>, seen: set<nat>, todo: set<nat>) {
    && (forall u :: u in seen ==> u < |g.funcs| && u !in panics && Behind(g, panics, matched, u))
    && todo <= seen
    && (forall u, k :: u in seen - todo && 0 <= k < |g.funcs[u].edges| && g.funcs[u].edges[k].to !in panics ==> g.funcs[u].edges[k].to in seen)
  }

  /** The sites collected: what the cut edges hide themselves, and the calls of every function done. */
  ghost predicate Collected(g: Program, panics: set<nat>, matched: seq<Cut>, seen: set<nat>, todo: set<nat>, sites: set<Site>) {
    && (forall s :: s in sites ==> Hides(g, panics, matched, s))
    && (forall i :: 0 <= i < |matched| && matched[i].to in panics ==> Site(matched[i].from, matched[i].site, matched[i].to) in sites)
    && (forall u, k :: u in seen - todo && u < |g.funcs| && 0 <= k < |g.funcs[u].edges| && g.funcs[u].edges[k].to in panics ==>
          Site(u, g.funcs[u].edges[k].site, g.funcs[u].edges[k].to) in sites)
  }

  lemma SweptAll(g: Program, panics: set<nat>, matched: seq<Cut>, seen: set<nat>, sites: set<Site>, s: Site)
    requires Swept(g, panics, matched, seen, {}) && Collected(g, panics, matched, seen, {}, sites)
    requires forall i :: 0 <= i < |matched| && matched[i].to !in panics ==> matched[i].to in seen
    ensures s in sites <==> Hides(g, panics, matched, s)
  {
    if Hides(g, panics, matched, s) {
      if Cut(s.from, s.to, s.site) in matched {
        var i :| 0 <= i < |matched| && matched[i] == Cut(s.from, s.to, s.site);
      } else {
        var chain :| IsChain(g, panics, matched, chain) && chain[|chain| - 1] == s.from;
        ChainInside(g, panics, matched, seen, chain);
        var k :| 0 <= k < |g.funcs[s.from].edges| && g.funcs[s.from].edges[k] == Edge(s.to, s.site);
      }
    }
  }

  ghost predicate OnStack(stack: seq<nat>, todo: set<nat>) {
    (forall v :: v in stack <==> v in todo) && forall i, j :: 0 <= i < j < |stack| ==> stack[i] != stack[j]
  }

  lemma Pushed(stack: seq<nat>, todo: set<nat>, v: nat)
    requires OnStack(stack, todo) && v !in todo
    ensures OnStack(stack + [v], todo + {v})
  {
  }

  lemma Popped(stack: seq<nat>, todo: set<nat>)
    requires OnStack(stack, todo) && stack != []
    ensures var v := stack[|stack| - 1]; v in todo && OnStack(stack[..|stack| - 1], todo - {v})
  {
    var v, rest := stack[|stack| - 1], stack[..|stack| - 1];
    assert stack == rest + [v];
  }

  ghost predicate Seeded(panics: set<nat>, matched: seq<Cut>, seen: set<nat>) {
    forall i :: 0 <= i < |matched| && matched[i].to !in panics ==> matched[i].to in seen
  }

  /** The cut's own edges: those into a panic, and the callees to walk from. */
  method Seed(g: Program, panics: set<nat>, matched: seq<Cut>) returns (sites: set<Site>, seen: set<nat>, stack: seq<nat>)
    requires g.Wf() && forall i :: 0 <= i < |matched| ==> matched[i].to < |g.funcs|
    ensures OnStack(stack, seen) && Swept(g, panics, matched, seen, seen) && Collected(g, panics, matched, seen, seen, sites)
    ensures Seeded(panics, matched, seen)
  {
    sites, seen, stack := {}, {}, [];
    var m := 0;
    hide Behind;
    while m < |matched|
      invariant 0 <= m <= |matched| && OnStack(stack, seen)
      invariant Swept(g, panics, matched, seen, seen) && Seeded(panics, matched[..m], seen)
      invariant forall s :: s in sites ==> Hides(g, panics, matched, s)
      invariant forall i :: 0 <= i < m && matched[i].to in panics ==> Site(matched[i].from, matched[i].site, matched[i].to) in sites
    {
      var c := matched[m];
      assert c in matched;
      if c.to in panics {
        sites := sites + {Site(c.from, c.site, c.to)};
      } else if c.to !in seen {
        BehindFirst(g, panics, matched, m);
        Pushed(stack, seen, c.to);
        seen, stack := seen + {c.to}, stack + [c.to];
      }
      m := m + 1;
    }
    assert matched[..m] == matched;
  }

  /** What following the first `k` calls of `cur` has left. */
  ghost predicate Sweeping(g: Program, panics: set<nat>, matched: seq<Cut>, cur: nat, k: nat, seen0: set<nat>, seen: set<nat>, sites: set<Site>) {
    && cur < |g.funcs| && k <= |g.funcs[cur].edges| && Behind(g, panics, matched, cur) && seen0 <= seen
    && (forall u :: u in seen - seen0 ==> u < |g.funcs| && u !in panics && Behind(g, panics, matched, u))
    && (forall s :: s in sites ==> Hides(g, panics, matched, s))
    && forall j :: 0 <= j < k ==>
         var e := g.funcs[cur].edges[j];
         if e.to in panics then Site(cur, e.site, e.to) in sites else e.to in seen
  }

  lemma SweepCall(g: Program, panics: set<nat>, matched: seq<Cut>, cur: nat, k: nat, seen0: set<nat>, seen: set<nat>, sites: set<Site>)
    requires g.Wf() && Sweeping(g, panics, matched, cur, k, seen0, seen, sites) && k < |g.funcs[cur].edges|
    ensures var e := g.funcs[cur].edges[k];
            if e.to in panics then Sweeping(g, panics, matched, cur, k + 1, seen0, seen, sites + {Site(cur, e.site, e.to)})
            else Sweeping(g, panics, matched, cur, k + 1, seen0, seen + {e.to}, sites)
  {
    var e := g.funcs[cur].edges[k];
    assert Edge(e.to, e.site) in g.funcs[cur].edges;
    if e.to !in panics {
      BehindNext(g, panics, matched, cur, k);
      assert Behind(g, panics, matched, e.to) && e.to < |g.funcs|;
      var more := seen + {e.to};
      assert forall u :: u in more - seen0 ==> u == e.to || u in seen - seen0;
    }
    hide Behind, Hides;
  }

  /** The calls of one function off the stack. */
  method SweepOne(g: Program, panics: set<nat>, matched: seq<Cut>, cur: nat, seen0: set<nat>, stack0: seq<nat>, sites0: set<Site>, ghost todo: set<nat>)
    returns (seen: set<nat>, stack: seq<nat>, sites: set<Site>)
    requires g.Wf() && Sweeping(g, panics, matched, cur, 0, seen0, seen0, sites0) && OnStack(stack0, todo) && todo <= seen0
    ensures Sweeping(g, panics, matched, cur, |g.funcs[cur].edges|, seen0, seen, sites) && sites0 <= sites
    ensures OnStack(stack, todo + (seen - seen0))
  {
    seen, stack, sites := seen0, stack0, sites0;
    var edges := g.funcs[cur].edges;
    var k := 0;
    assert todo + (seen - seen0) == todo;
    assert |edges| == |g.funcs[cur].edges| && seen0 <= seen;
    hide Sweeping, OnStack;
    while k < |edges|
      invariant 0 <= k <= |edges| && sites0 <= sites && seen0 <= seen
      invariant Sweeping(g, panics, matched, cur, k, seen0, seen, sites) && OnStack(stack, todo + (seen - seen0))
    {
      SweepCall(g, panics, matched, cur, k, seen0, seen, sites);
      var e := edges[k];
      if e.to in panics {
        sites := sites + {Site(cur, e.site, e.to)};
      } else if e.to !in seen {
        Pushed(stack, todo + (seen - seen0), e.to);
        assert todo + (seen - seen0) + {e.to} == todo + (seen + {e.to} - seen0);
        seen, stack := seen + {e.to}, stack + [e.to];
      } else {
        assert seen + {e.to} == seen;
      }
      k := k + 1;
    }
  }

  lemma SweepDone(g: Program, panics: set<nat>, matched: seq<Cut>, cur: nat, seen0: set<nat>, seen: set<nat>, todo: set<nat>, sites0: set<Site>, sites: set<Site>)
    requires Swept(g, panics, matched, seen0, todo) && Collected(g, panics, matched, seen0, todo, sites0) && cur in todo
    requires cur < |g.funcs| && Sweeping(g, panics, matched, cur, |g.funcs[cur].edges|, seen0, seen, sites) && sites0 <= sites
    ensures var n := todo - {cur} + (seen - seen0);
            Swept(g, panics, matched, seen, n) && Collected(g, panics, matched, seen, n, sites) && seen - n == seen0 - todo + {cur}
  {
    hide Hides, Behind;
  }

  lemma DoneBounded(g: Program, done: set<nat>)
    requires forall u :: u in done ==> u < |g.funcs|
    ensures |done| <= |g.funcs|
  {
    SetBounded(done, |g.funcs|);
  }

  lemma {:induction false} SetBounded(s: set<nat>, n: nat)
    requires forall u :: u in s ==> u < n
    ensures |s| <= n
  {
    if n > 0 {
      SetBounded(s - {n - 1}, n - 1);
    } else {
      assert s == {};
    }
  }

  /** All that a declared cut takes out of sight, found by walking on from the far ends of its edges. */
  method HiddenSites(g: Program, panics: set<nat>, matched: seq<Cut>) returns (sites: set<Site>)
    requires g.Wf() && forall i :: 0 <= i < |matched| ==> matched[i].to < |g.funcs|
    ensures forall s :: s in sites <==> Hides(g, panics, matched, s)
  {
    var seen, stack;
    sites, seen, stack := Seed(g, panics, matched);
    ghost var todo := seen;
    hide Hides, Behind;
    while stack != []
      invariant OnStack(stack, todo) && Seeded(panics, matched, seen)
      invariant Swept(g, panics, matched, seen, todo) && Collected(g, panics, matched, seen, todo, sites)
      decreases |g.funcs| - |seen - todo|
    {
      Popped(stack, todo);
      var cur := stack[|stack| - 1];
      ghost var seen0, todo0, sites0 := seen, todo, sites;
      seen, stack, sites := SweepOne(g, panics, matched, cur, seen, stack[..|stack| - 1], sites, todo - {cur});
      SweepDone(g, panics, matched, cur, seen0, seen, todo0, sites0, sites);
      todo := todo0 - {cur} + (seen - seen0);
      DoneBounded(g, seen - todo);
    }
    assert todo == {};
    forall s
      ensures s in sites <==> Hides(g, panics, matched, s)
    {
      SweptAll(g, panics, matched, seen, sites, s);
    }
  }
}
