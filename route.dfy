/**
 * Route search over the server overlay network: a Dijkstra search with
 * unit edge weights that consumes the topology it is given.
 *
 * A topology is the set of node ids it holds; each node's neighbours are
 * the ids of the nodes in its own neighbour list.
 */
module Routes {
  import opened Wrappers
  import opened Text

  datatype Graph = Graph(nodes: set<String>, adj: map<String, set<String>>) {
    /** The ids in the neighbour list of node u. */
    function Succ(u: String): set<String> {
      if u in adj then adj[u] else {}
    }

    /** A walk through the topology along neighbour links. */
    predicate IsWalk(w: seq<String>) {
      |w| > 0
      && (forall i :: 0 <= i < |w| ==> w[i] in nodes)
      && (forall i :: 0 <= i < |w| - 1 ==> w[i + 1] in Succ(w[i]))
    }

    /** The nodes at most k links away from start. */
    function Reach(start: String, k: nat): set<String> {
      if k == 0 then {start}
      else
        var r := Reach(start, k - 1);
        r + set v | v in nodes && exists u :: u in r && v in Succ(u)
    }
  }

  /** The end of a walk is reached within as many steps as the walk has links. */
  lemma {:induction false} WalkReach(g: Graph, w: seq<String>)
    requires g.IsWalk(w)
    ensures w[|w| - 1] in g.Reach(w[0], |w| - 1)
    decreases |w|
  {
    if |w| > 1 {
      var init := w[..|w| - 1];
      assert g.IsWalk(init);
      WalkReach(g, init);
      assert w[|w| - 2] in g.Reach(w[0], |w| - 2) && w[|w| - 1] in g.Succ(w[|w| - 2]);
    }
  }

  lemma {:induction false} ReachInNodes(g: Graph, start: String, k: nat)
    requires start in g.nodes
    ensures g.Reach(start, k) <= g.nodes
    decreases k
  {
    if k > 0 {
      ReachInNodes(g, start, k - 1);
    }
  }

  // ---------------------------------------------------------------- search state

  /** What findRoute has: the topology left, the distances found and the previous hops. */
  datatype Search = Search(topo: set<String>, dist: map<String, nat>, prev: map<String, String>)

  /** Every previous hop is a visited node linked to its successor, one step nearer. */
  ghost predicate PrevOk(g: Graph, s: Search) {
    forall v :: v in s.prev ==>
      s.prev[v] in s.dist && s.prev[v] in g.nodes && s.prev[v] !in s.topo
      && v in g.nodes && v in s.dist && v in g.Succ(s.prev[v]) && s.dist[v] == s.dist[s.prev[v]] + 1
  }

  /** The neighbours of a visited node have a distance at most one more. */
  ghost predicate EdgesOk(g: Graph, s: Search) {
    forall u, v :: u in g.nodes && u !in s.topo && v in g.Succ(u) && v in g.nodes ==>
      u in s.dist && v in s.dist && s.dist[v] <= s.dist[u] + 1
  }

  /** Visited nodes are no farther than any node still waiting. */
  ghost predicate Monotone(g: Graph, s: Search) {
    forall v, w :: v in g.nodes && v !in s.topo && w in s.dist && w in s.topo ==>
      v in s.dist && s.dist[v] <= s.dist[w]
  }

  /** A visited node's distance is no more than any number of steps that reaches it. */
  ghost predicate Final(g: Graph, start: String, s: Search) {
    forall v, k: nat :: v in g.nodes && v !in s.topo && v in g.Reach(start, k) ==>
      v in s.dist && s.dist[v] <= k
  }

  ghost predicate Inv(g: Graph, start: String, s: Search) {
    && s.topo <= g.nodes
    && (s.topo == g.nodes ==> s.dist == map[start := 0] && s.prev == map[])
    && (s.topo != g.nodes ==> start in g.nodes && start !in s.topo)
    && start in s.dist && s.dist[start] == 0
    && s.prev.Keys == s.dist.Keys - {start}
    && s.dist.Keys <= g.nodes + {start}
    && PrevOk(g, s) && EdgesOk(g, s) && Monotone(g, s) && Final(g, start, s)
  }

  /** The nodes waiting with a known distance. */
  function Candidates(s: Search): set<String> {
    set v | v in s.dist && v in s.topo
  }

  /** Some waiting node is no farther than k from start whenever a waiting node is reached within k steps. */
  lemma {:induction false} FrontierBound(g: Graph, start: String, s: Search, x: String, k: nat)
    requires Inv(g, start, s) && start in g.nodes
    requires x in s.topo && x in g.Reach(start, k)
    ensures exists y :: y in Candidates(s) && s.dist[y] <= k
    decreases k
  {
    if k == 0 {
      assert x == start && x in Candidates(s);
    } else if x in g.Reach(start, k - 1) {
      FrontierBound(g, start, s, x, k - 1);
    } else {
      var u :| u in g.Reach(start, k - 1) && x in g.Succ(u);
      if u in s.topo {
        FrontierBound(g, start, s, u, k - 1);
      } else {
        ReachInNodes(g, start, k - 1);
        assert s.dist[u] <= k - 1;
        assert x in Candidates(s) && s.dist[x] <= s.dist[u] + 1;
      }
    }
  }

  /** The nearest waiting node is at its shortest distance. */
  lemma NearestIsShortest(g: Graph, start: String, s: Search, u: String)
    requires Inv(g, start, s) && u in Candidates(s)
    requires forall w :: w in Candidates(s) ==> s.dist[u] <= s.dist[w]
    ensures start in g.nodes
    ensures forall k: nat :: u in g.Reach(start, k) ==> s.dist[u] <= k
  {
    if s.topo == g.nodes {
      assert u == start;
    }
    forall k: nat | u in g.Reach(start, k) ensures s.dist[u] <= k {
      FrontierBound(g, start, s, u, k);
    }
  }

  /** With no waiting node reachable, every node left is out of reach of start. */
  lemma StuckUnreachable(g: Graph, start: String, s: Search, x: String)
    requires Inv(g, start, s) && s.topo != g.nodes && Candidates(s) == {} && x in s.topo
    ensures forall k: nat :: x !in g.Reach(start, k)
  {
    forall k: nat | x in g.Reach(start, k) ensures false {
      FrontierBound(g, start, s, x, k);
    }
  }

  // ---------------------------------------------------------------- relaxation

  /** The neighbours in `done` whose distance improves through u. */
  function Improved(s: Search, u: String, done: set<String>): set<String>
    requires u in s.dist
  {
    set v | v in done && v in s.topo && (v !in s.dist || s.dist[u] + 1 < s.dist[v])
  }

  /** The search state once the neighbours of u in `done` have been relaxed. */
  function RelaxOver(s: Search, u: String, done: set<String>): (r: Search)
    requires u in s.dist
    ensures r.topo == s.topo
  {
    var imp := Improved(s, u, done);
    Search(s.topo,
           map v | v in s.dist.Keys + imp :: if v in imp then s.dist[u] + 1 else s.dist[v],
           map v | v in s.prev.Keys + imp :: if v in imp then u else s.prev[v])
  }

  lemma RelaxOverStep(s: Search, u: String, done: set<String>, nb: String)
    requires u in s.dist && u !in s.topo && nb !in done
    ensures var r := RelaxOver(s, u, done);
      RelaxOver(s, u, done + {nb}) ==
        if nb in s.topo && (nb !in r.dist || r.dist[u] + 1 < r.dist[nb])
        then Search(r.topo, r.dist[nb := r.dist[u] + 1], r.prev[nb := u])
        else r
  {
    var r := RelaxOver(s, u, done);
    var r2 := RelaxOver(s, u, done + {nb});
    var imp := Improved(s, u, done);
    assert r.dist[u] == s.dist[u];
    assert nb in r.dist <==> nb in s.dist;
    if nb in s.dist {
      assert r.dist[nb] == s.dist[nb];
    }
    if nb in s.topo && (nb !in s.dist || s.dist[u] + 1 < s.dist[nb]) {
      assert Improved(s, u, done + {nb}) == imp + {nb};
      assert r2.dist == r.dist[nb := r.dist[u] + 1];
      assert r2.prev == r.prev[nb := u];
    } else {
      assert Improved(s, u, done + {nb}) == imp;
    }
  }

  /** The loop over the neighbours of the node just visited. */
  method Relax(g: Graph, s: Search, u: String) returns (r: Search)
    requires u in s.dist && u !in s.topo
    ensures r == RelaxOver(s, u, g.Succ(u))
  {
    var dist, prev := s.dist, s.prev;
    var todo := g.Succ(u);
    ghost var done: set<String> := {};
    assert RelaxOver(s, u, {}) == s;
    while todo != {}
      invariant done <= g.Succ(u) && todo == g.Succ(u) - done
      invariant Search(s.topo, dist, prev) == RelaxOver(s, u, done)
      decreases todo
    {
      var nb :| nb in todo;
      RelaxOverStep(s, u, done, nb);
      if nb in s.topo {
        var tmpDistance := dist[u] + 1;
        if nb in dist {
          if tmpDistance < dist[nb] {
            dist, prev := dist[nb := tmpDistance], prev[nb := u];
          }
        } else {
          dist, prev := dist[nb := tmpDistance], prev[nb := u];
        }
      }
      assert g.Succ(u) - (todo - {nb}) == done + {nb};
      todo := todo - {nb};
      done := done + {nb};
    }
    assert done == g.Succ(u);
    r := Search(s.topo, dist, prev);
  }

  // ---------------------------------------------------------------- keeping the invariant

  /** The state after visiting u: u leaves the topology and its neighbours are relaxed. */
  function Visit(g: Graph, s: Search, u: String): Search
    requires u in s.dist
  {
    RelaxOver(Search(s.topo - {u}, s.dist, s.prev), u, g.Succ(u))
  }

  /** What relaxing the neighbours of u changes: the improved ones get distance dist[u] + 1 via u. */
  lemma RelaxFacts(s: Search, u: String, nbs: set<String>)
    requires u in s.dist
    ensures var r := RelaxOver(s, u, nbs);
      var imp := Improved(s, u, nbs);
      && r.dist.Keys == s.dist.Keys + imp && r.prev.Keys == s.prev.Keys + imp
      && (forall v :: v in imp ==> r.dist[v] == s.dist[u] + 1 && r.prev[v] == u)
      && (forall v :: v in s.dist && v !in imp ==> r.dist[v] == s.dist[v])
      && (forall v :: v in s.prev && v !in imp ==> r.prev[v] == s.prev[v])
  {
  }

  lemma VisitKeepsInv(g: Graph, start: String, s: Search, u: String)
    requires Inv(g, start, s) && u in Candidates(s)
    requires forall w :: w in Candidates(s) ==> s.dist[u] <= s.dist[w]
    ensures Inv(g, start, Visit(g, s, u))
  {
    NearestIsShortest(g, start, s, u);
    var s1 := Search(s.topo - {u}, s.dist, s.prev);
    var r := Visit(g, s, u);
    var imp := Improved(s1, u, g.Succ(u));
    RelaxFacts(s1, u, g.Succ(u));
    assert imp <= g.Succ(u) && imp <= r.topo;
    assert forall v :: v in s.dist && v !in r.topo ==> v !in imp;
    VisitPrevOk(g, s, u, r, imp);
    VisitEdgesOk(g, start, s, u, r, imp);
    VisitMonotone(g, start, s, u, r, imp);
    VisitFinal(g, start, s, u, r, imp);
    VisitRest(g, start, s, u, r, imp);
  }

  lemma VisitRest(g: Graph, start: String, s: Search, u: String, r: Search, imp: set<String>)
    requires Inv(g, start, s) && u in Candidates(s) && start in g.nodes
    requires r.topo == s.topo - {u} && r.dist.Keys == s.dist.Keys + imp && r.prev.Keys == s.prev.Keys + imp
    requires imp <= r.topo && start !in imp
    requires forall v :: v in s.dist && v !in imp ==> r.dist[v] == s.dist[v]
    requires PrevOk(g, r) && EdgesOk(g, r) && Monotone(g, r) && Final(g, start, r)
    ensures Inv(g, start, r)
  {
    if s.topo == g.nodes {
      assert u == start;
    }
  }

  lemma VisitPrevOk(g: Graph, s: Search, u: String, r: Search, imp: set<String>)
    requires PrevOk(g, s) && u in s.dist && u in s.topo && s.topo <= g.nodes
    requires r.topo == s.topo - {u} && r.dist.Keys == s.dist.Keys + imp && r.prev.Keys == s.prev.Keys + imp
    requires imp <= g.Succ(u) && imp <= r.topo
    requires forall v :: v in imp ==> r.dist[v] == s.dist[u] + 1 && r.prev[v] == u
    requires forall v :: v in s.dist && v !in imp ==> r.dist[v] == s.dist[v]
    requires forall v :: v in s.prev && v !in imp ==> r.prev[v] == s.prev[v]
    requires forall v :: v in s.dist && v !in r.topo ==> v !in imp
    ensures PrevOk(g, r)
  {
  }

  lemma VisitEdgesOk(g: Graph, start: String, s: Search, u: String, r: Search, imp: set<String>)
    requires EdgesOk(g, s) && Monotone(g, s) && u in s.dist && u in s.topo && s.topo <= g.nodes
    requires r.topo == s.topo - {u} && r.dist.Keys == s.dist.Keys + imp
    requires imp == set v | v in g.Succ(u) && v in r.topo && (v !in s.dist || s.dist[u] + 1 < s.dist[v])
    requires forall v :: v in imp ==> r.dist[v] == s.dist[u] + 1
    requires forall v :: v in s.dist && v !in imp ==> r.dist[v] == s.dist[v]
    ensures EdgesOk(g, r)
  {
    forall a, v | a in g.nodes && a !in r.topo && v in g.Succ(a) && v in g.nodes
      ensures a in r.dist && v in r.dist && r.dist[v] <= r.dist[a] + 1
    {
      if a != u {
        assert a !in s.topo;
        assert v in s.dist && s.dist[v] <= s.dist[a] + 1;
      } else if v in r.topo {
        assert v in s.dist ==> v in imp || s.dist[v] <= s.dist[u] + 1;
      } else if v != u {
        assert v !in s.topo;
      }
    }
  }

  lemma VisitMonotone(g: Graph, start: String, s: Search, u: String, r: Search, imp: set<String>)
    requires Monotone(g, s) && u in s.dist && u in s.topo && s.topo <= g.nodes
    requires forall w :: w in Candidates(s) ==> s.dist[u] <= s.dist[w]
    requires r.topo == s.topo - {u} && r.dist.Keys == s.dist.Keys + imp
    requires forall v :: v in imp ==> r.dist[v] == s.dist[u] + 1
    requires forall v :: v in s.dist && v !in imp ==> r.dist[v] == s.dist[v]
    requires forall v :: v in s.dist && v !in r.topo ==> v !in imp
    ensures Monotone(g, r)
  {
    forall v, w | v in g.nodes && v !in r.topo && w in r.dist && w in r.topo
      ensures v in r.dist && r.dist[v] <= r.dist[w]
    {
      if w !in imp {
        assert w in Candidates(s);
      }
      if v != u {
        assert v !in s.topo && s.dist[v] <= s.dist[u];
      }
    }
  }

  lemma VisitFinal(g: Graph, start: String, s: Search, u: String, r: Search, imp: set<String>)
    requires Final(g, start, s) && u in s.dist && u in s.topo
    requires forall k: nat :: u in g.Reach(start, k) ==> s.dist[u] <= k
    requires r.topo == s.topo - {u} && r.dist.Keys == s.dist.Keys + imp
    requires forall v :: v in s.dist && v !in imp ==> r.dist[v] == s.dist[v]
    requires forall v :: v in s.dist && v !in r.topo ==> v !in imp
    ensures Final(g, start, r)
  {
    forall v, k: nat | v in g.nodes && v !in r.topo && v in g.Reach(start, k)
      ensures v in r.dist && r.dist[v] <= k
    {
      if v != u {
        assert v !in s.topo;
      }
    }
  }

  // ---------------------------------------------------------------- findRoute

  /**
   * The outcomes of findRoute: a route, the empty list, the error raised
   * when the first pass finds no start node (its `currentNode` is never
   * assigned), or a search that never ends (later passes reuse the stale
   * `currentNode` and remove nothing).
   */
  datatype RouteOutcome = Route(path: seq<String>) | NoRoute | Unbound | Diverges

  /** A waiting node with the least distance (the first in sorted order). */
  method Nearest(s: Search) returns (u: String)
    requires Candidates(s) != {}
    ensures u in Candidates(s)
    ensures forall w :: w in Candidates(s) ==> s.dist[u] <= s.dist[w]
  {
    var cand := Candidates(s);
    u :| u in cand;
    var todo := cand - {u};
    while todo != {}
      invariant todo <= cand && u in cand
      invariant forall w :: w in cand - todo ==> s.dist[u] <= s.dist[w]
      decreases todo
    {
      var w :| w in todo;
      if s.dist[w] < s.dist[u] {
        u := w;
      }
      todo := todo - {w};
    }
  }

  /**
   * Follows the previous hops back from end.  The source appends each hop
   * and reverses the list at the end; prepending gives the same list.
   */
  method BuildRoute(g: Graph, start: String, s: Search, end: String) returns (path: seq<String>)
    requires Inv(g, start, s) && end in s.dist && end in g.nodes && start in g.nodes
    ensures g.IsWalk(path) && path[0] == start && path[|path| - 1] == end
    ensures |path| == s.dist[end] + 1
  {
    var n := end;
    var route: seq<String> := [];
    while n in s.prev
      invariant n in s.dist && n in g.nodes
      invariant g.IsWalk([n] + route) && ([n] + route)[|route|] == end
      invariant |route| == s.dist[end] - s.dist[n]
      decreases s.dist[n]
    {
      var p := s.prev[n];
      assert g.IsWalk([p] + ([n] + route)) by {
        var w := [p] + ([n] + route);
        forall i | 0 <= i < |w| - 1 ensures w[i + 1] in g.Succ(w[i]) {
          if i > 0 {
            assert w[i] == ([n] + route)[i - 1] && w[i + 1] == ([n] + route)[i];
          }
        }
      }
      route := [n] + route;
      n := p;
    }
    path := [start] + route;
  }

  /**
   * findRoute: Dijkstra's search from start with every link one step
   * long.  It returns the route and the topology left once the visited
   * nodes are removed.
   */
  method FindRoute(g: Graph, start: String, end: String) returns (outcome: RouteOutcome, left: set<String>)
    ensures left <= g.nodes
    ensures outcome.Route? ==> ShortestRoute(g, start, end, outcome.path) && end !in left
    ensures outcome.NoRoute? ==> end !in g.nodes && left == {}
    ensures outcome.Unbound? ==> start !in g.nodes && left == g.nodes && left != {}
    ensures outcome.Diverges? ==> left != {} && Unreachable(g, start, left)
    ensures Connected(g, start, end) ==> outcome.Route?
  {
    var s := Search(g.nodes, map[start := 0], map[]);
    while s.topo != {}
      invariant Inv(g, start, s)
      invariant end in g.nodes ==> end in s.topo
      decreases |s.topo|
    {
      var next, answer := SearchStep(g, start, end, s);
      if answer.Some? {
        return answer.value.0, answer.value.1;
      }
      s := next;
    }
    NotConnectedOutside(g, start, end);
    return NoRoute, s.topo;
  }

  /** What findRoute promises when it returns `outcome` and leaves `left` of the topology. */
  ghost predicate Answers(g: Graph, start: String, end: String, outcome: RouteOutcome, left: set<String>) {
    && left <= g.nodes
    && (outcome.Route? ==> ShortestRoute(g, start, end, outcome.path) && end !in left)
    && (outcome.NoRoute? ==> end !in g.nodes && left == {})
    && (outcome.Unbound? ==> start !in g.nodes && left == g.nodes && left != {})
    && (outcome.Diverges? ==> left != {} && Unreachable(g, start, left))
    && (Connected(g, start, end) ==> outcome.Route?)
  }

  /**
   * One pass of findRoute's main loop: pick the nearest waiting node,
   * remove it, and either answer or relax its neighbours.
   */
  method SearchStep(g: Graph, start: String, end: String, s: Search)
    returns (next: Search, answer: Option<(RouteOutcome, set<String>)>)
    requires Inv(g, start, s) && s.topo != {} && (end in g.nodes ==> end in s.topo)
    ensures answer.Some? ==> Answers(g, start, end, answer.value.0, answer.value.1)
    ensures answer.None? ==>
      Inv(g, start, next) && (end in g.nodes ==> end in next.topo) && |next.topo| < |s.topo|
  {
    next := s;
    if Candidates(s) == {} {
      if s.topo == g.nodes {
        NotConnectedOutside(g, start, end);
        return next, Some((Unbound, s.topo));
      }
      StuckSpec(g, start, end, s);
      return next, Some((Diverges, s.topo));
    }
    var u := Nearest(s);
    if u == end {
      NearestIsShortest(g, start, s, u);
      var path := BuildRoute(g, start, s, end);
      FoundSpec(g, start, end, s, path);
      return next, Some((Route(path), s.topo - {u}));
    }
    VisitKeepsInv(g, start, s, u);
    next := Relax(g, Search(s.topo - {u}, s.dist, s.prev), u);
    assert next == Visit(g, s, u) && next.topo == s.topo - {u};
    answer := None;
  }

  /** A route from start to end along neighbour links that no other such walk is shorter than. */
  ghost predicate ShortestRoute(g: Graph, start: String, end: String, path: seq<String>) {
    && g.IsWalk(path) && path[0] == start && path[|path| - 1] == end
    && forall w :: g.IsWalk(w) && w[0] == start && w[|w| - 1] == end ==> |path| <= |w|
  }

  /** Some walk leads from start to end. */
  ghost predicate Connected(g: Graph, start: String, end: String) {
    exists w :: g.IsWalk(w) && w[0] == start && w[|w| - 1] == end
  }

  /** No node of `left` is any number of steps away from start. */
  ghost predicate Unreachable(g: Graph, start: String, left: set<String>) {
    forall x, k: nat :: x in left ==> x !in g.Reach(start, k)
  }

  /** The route built once end is the nearest waiting node is a shortest one. */
  lemma FoundSpec(g: Graph, start: String, end: String, s: Search, path: seq<String>)
    requires end in s.dist && forall k: nat :: end in g.Reach(start, k) ==> s.dist[end] <= k
    requires g.IsWalk(path) && path[0] == start && path[|path| - 1] == end && |path| == s.dist[end] + 1
    ensures ShortestRoute(g, start, end, path)
  {
    forall w | g.IsWalk(w) && w[0] == start && w[|w| - 1] == end ensures |path| <= |w| {
      WalkReach(g, w);
    }
  }

  /** A stuck search has every node left out of reach, end among them when it is in the topology. */
  lemma StuckSpec(g: Graph, start: String, end: String, s: Search)
    requires Inv(g, start, s) && s.topo != g.nodes && Candidates(s) == {}
    requires end in g.nodes ==> end in s.topo
    ensures Unreachable(g, start, s.topo) && !Connected(g, start, end)
  {
    forall x, k: nat | x in s.topo ensures x !in g.Reach(start, k) {
      StuckUnreachable(g, start, s, x);
    }
    if Connected(g, start, end) {
      var w :| g.IsWalk(w) && w[0] == start && w[|w| - 1] == end;
      WalkReach(g, w);
    }
  }

  /** A walk lies inside the topology, so none starts or ends outside it. */
  lemma NotConnectedOutside(g: Graph, start: String, end: String)
    ensures start !in g.nodes || end !in g.nodes ==> !Connected(g, start, end)
  {
  }
}
