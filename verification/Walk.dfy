/** utils/rr_graph_walk/rr_graph_walk.py: the depth-first walk that reports every route ending
    where nothing new can be visited. */
module Walk {
  import opened Reachability

  type Adjacency = map<NodeId, seq<NodeId>>

  datatype WalkContext = WalkContext(node: NodeId, depth: nat)

  /** How a walk ends: every context handled, the callback said stop, or "The route was invalid!". */
  datatype Outcome = Finished | Stopped | InvalidRoute

  /** What the walk can do: follow an edge to a node of the graph. */
  function Walkable(adj: Adjacency, ids: set<NodeId>): Digraph {
    map a | a in adj :: set b | b in adj[a] && b in ids
  }

  predicate Linked(adj: Adjacency, a: NodeId, b: NodeId) { a in adj && b in adj[a] }

  ghost predicate IsRoute(adj: Adjacency, route: seq<NodeId>) {
    && route != []
    && (forall i :: 0 <= i < |route| - 1 ==> Linked(adj, route[i], route[i + 1]))
    && (forall i, j :: 0 <= i < j < |route| ==> route[i] != route[j])
  }

  /** The nodes of a list of routes. */
  ghost function Touched(routes: seq<seq<NodeId>>): set<NodeId> {
    set r, n | r in routes && n in r :: n
  }

  /** A walkable edge leads back to the start. */
  ghost predicate ReturnsToStart(g: Digraph, start: NodeId) {
    exists u :: Reaches(g, start, u) && Step(g, u, start)
  }

  /** A callback sees the routes reported so far, the newest last, and says whether to go on. */
  type Callback = seq<seq<NodeId>> -> bool

  ghost predicate AllAccepted(callback: Callback, routes: seq<seq<NodeId>>) {
    forall i :: 1 <= i <= |routes| ==> callback(routes[..i])
  }

  function NodesOf(s: seq<NodeId>): set<NodeId> { set n | n in s }

  // ----- the invariant of a walk -----

  ghost function Waiting(stack: seq<WalkContext>): set<NodeId> {
    set c | c in stack :: c.node
  }

  /** Deeper contexts lie higher, and each hangs off the current route by a walkable edge. */
  ghost predicate StackFits(g: Digraph, stack: seq<WalkContext>, route: seq<NodeId>) {
    && (forall i, j :: 0 <= i < j < |stack| ==> stack[i].depth <= stack[j].depth && stack[i].node != stack[j].node)
    && (forall i :: 0 <= i < |stack| ==>
      1 <= stack[i].depth <= |route| && Step(g, route[stack[i].depth - 1], stack[i].node))
  }

  ghost predicate RouteFits(adj: Adjacency, start: NodeId, route: seq<NodeId>, popped: set<NodeId>) {
    IsRoute(adj, route) && route[0] == start && forall n :: n in route ==> n in popped
  }

  /** Who has been visited, who waits on the stack, and who may still be picked. The start may
      wait a second time: an edge led back to it. */
  ghost predicate SetsFit(g: Digraph, start: NodeId, ids: set<NodeId>, left: set<NodeId>, waiting: set<NodeId>,
      popped: set<NodeId>)
  {
    && start in popped
    && left <= ids && ids - left <= popped + waiting
    && (popped + waiting) * left <= {start}
    && popped * waiting <= {start}
    && (start in waiting ==> start !in left)
    && (start in ids && start !in left ==> start in waiting)
    && (forall u :: u in popped + waiting ==> Reaches(g, start, u))
    && (forall u, v :: u in popped && Step(g, u, v) ==> v !in left && v in popped + waiting)
  }

  ghost predicate RoutesFit(adj: Adjacency, start: NodeId, popped: set<NodeId>, reported: seq<seq<NodeId>>) {
    && (forall r :: r in reported ==> IsRoute(adj, r) && r[0] == start)
    && (forall r, n :: r in reported && n in r ==> n in popped)
  }

  /** Every visited node is on a reported route or on the current one, and the current one is
      reported already unless its last node has children waiting on top of the stack. */
  ghost predicate CoverFits(stack: seq<WalkContext>, route: seq<NodeId>, popped: set<NodeId>,
      reported: seq<seq<NodeId>>)
  {
    && (forall n :: n in popped ==> n in route || n in Touched(reported))
    && (route in reported || (stack != [] && stack[|stack| - 1].depth == |route|))
  }

  ghost predicate EndsAt(reported: seq<seq<NodeId>>, u: NodeId) {
    exists r :: r in reported && r != [] && r[|r| - 1] == u
  }

  ghost predicate EndsFit(g: Digraph, popped: set<NodeId>, reported: seq<seq<NodeId>>) {
    forall u :: u in popped && IsDeadEnd(g, u) ==> EndsAt(reported, u)
  }

  predicate IsDeadEnd(g: Digraph, u: NodeId) { u !in g || g[u] == {} }

  ghost predicate ReportsFit(g: Digraph, adj: Adjacency, start: NodeId, stack: seq<WalkContext>, route: seq<NodeId>,
      popped: set<NodeId>, reported: seq<seq<NodeId>>)
  {
    RoutesFit(adj, start, popped, reported) && CoverFits(stack, route, popped, reported) && EndsFit(g, popped, reported)
  }

  ghost predicate Walking(g: Digraph, adj: Adjacency, start: NodeId, ids: set<NodeId>, left: set<NodeId>,
      stack: seq<WalkContext>, route: seq<NodeId>, popped: set<NodeId>)
  {
    && StackFits(g, stack, route)
    && RouteFits(adj, start, route, popped)
    && SetsFit(g, start, ids, left, Waiting(stack), popped)
  }

  /** What pushing the unvisited targets of one node does to the stack and to the free nodes. */
  ghost predicate Pushed(pushed: seq<WalkContext>, targets: set<NodeId>, depth: nat, left: set<NodeId>,
      leftAfter: set<NodeId>)
  {
    && (forall i, j :: 0 <= i < j < |pushed| ==> pushed[i].node != pushed[j].node)
    && (forall i :: 0 <= i < |pushed| ==> pushed[i].depth == depth)
    && Waiting(pushed) == targets * left
    && leftAfter == left - targets
  }

  lemma WaitingGrows(stack: seq<WalkContext>, c: WalkContext)
    ensures Waiting(stack + [c]) == Waiting(stack) + {c.node}
  {
    assert c in stack + [c];
  }

  lemma WaitingJoins(a: seq<WalkContext>, b: seq<WalkContext>)
    ensures Waiting(a + b) == Waiting(a) + Waiting(b)
  {
  }

  lemma WaitingMember(stack: seq<WalkContext>, i: nat)
    requires i < |stack|
    ensures stack[i].node in Waiting(stack)
  {
    assert stack[i] in stack;
  }

  /** The route is rolled back to the parent of the popped context and extended by its node. */
  function Rolled(route: seq<NodeId>, c: WalkContext): seq<NodeId>
    requires c.depth <= |route|
  {
    route[..c.depth] + [c.node]
  }

  lemma RouteKeeps(g: Digraph, adj: Adjacency, start: NodeId, ids: set<NodeId>, base: seq<WalkContext>,
      c: WalkContext, route: seq<NodeId>, popped: set<NodeId>)
    requires g == Walkable(adj, ids)
    requires StackFits(g, base + [c], route) && RouteFits(adj, start, route, popped)
    ensures c.depth <= |route| && Rolled(route, c)[0] == start
    ensures c.node !in popped ==> RouteFits(adj, start, Rolled(route, c), popped + {c.node})
    ensures c.node == start ==> !IsRoute(adj, Rolled(route, c))
  {
    var stack := base + [c];
    assert stack[|base|] == c;
    assert Step(g, route[c.depth - 1], c.node);
    var after := Rolled(route, c);
    assert after[|after| - 1] == c.node && |after| >= 2;
  }

  lemma StackKeeps(g: Digraph, base: seq<WalkContext>, c: WalkContext, pushed: seq<WalkContext>, route: seq<NodeId>,
      left: set<NodeId>, leftAfter: set<NodeId>)
    requires StackFits(g, base + [c], route)
    requires Pushed(pushed, Targets(g, c.node), c.depth + 1, left, leftAfter)
    requires Waiting(base) !! left
    ensures c.depth <= |route| && StackFits(g, base + pushed, Rolled(route, c))
  {
    var before, after := base + [c], base + pushed;
    assert before[|base|] == c;
    forall i | 0 <= i < |base| ensures after[i] == base[i] == before[i] && before[i].depth <= c.depth {
      assert before[i].depth <= before[|base|].depth;
    }
    forall i | 0 <= i < |base| ensures after[i].node !in left {
      WaitingMember(base, i);
    }
    forall i | |base| <= i < |after|
      ensures after[i].depth == c.depth + 1 && Step(g, c.node, after[i].node) && after[i].node in left
    {
      WaitingMember(pushed, i - |base|);
    }
  }

  lemma SetsKeep(g: Digraph, start: NodeId, ids: set<NodeId>, left: set<NodeId>, base: seq<WalkContext>,
      c: WalkContext, pushed: seq<WalkContext>, leftAfter: set<NodeId>, popped: set<NodeId>)
    requires forall u, v :: Step(g, u, v) ==> v in ids
    requires SetsFit(g, start, ids, left, Waiting(base + [c]), popped)
    requires c.node !in popped && c.node !in Waiting(base)
    requires Pushed(pushed, Targets(g, c.node), c.depth + 1, left, leftAfter)
    ensures SetsFit(g, start, ids, leftAfter, Waiting(base + pushed), popped + {c.node})
  {
    WaitingGrows(base, c);
    WaitingJoins(base, pushed);
    forall v | v in Waiting(pushed) ensures Reaches(g, start, v) && Step(g, c.node, v) {
      ReachesStep(g, start, c.node, v);
    }
    var waiting, done := Waiting(base + pushed), popped + {c.node};
    assert c.node !in left by {
      assert c.node in popped + Waiting(base + [c]);
      assert c.node in left ==> c.node in (popped + Waiting(base + [c])) * left;
    }
    forall u, v | u in done && Step(g, u, v) ensures v !in leftAfter && v in done + waiting {
      if u == c.node {
        assert v in Targets(g, u);
        if v !in left { assert v in ids - left; } else { assert v in Waiting(pushed); }
      }
    }
    assert done * waiting <= {start};
    assert (done + waiting) * leftAfter <= {start};
    forall x | x in ids && x !in leftAfter ensures x in done + waiting {
      if x !in left { assert x in ids - left; }
    }
    assert start in waiting ==> start !in leftAfter;
    assert start in ids && start !in leftAfter ==> start in waiting;
  }

  lemma StepsStay(adj: Adjacency, ids: set<NodeId>)
    ensures forall u, v :: Step(Walkable(adj, ids), u, v) ==> v in ids
  {
  }

  lemma TopDepth(g: Digraph, stack: seq<WalkContext>, route: seq<NodeId>)
    requires stack != []
    requires StackFits(g, stack, route) || (stack[|stack| - 1].depth == 0 && |stack| == 1)
    ensures stack[|stack| - 1].depth <= |route|
  {
  }

  /** Before the first visit only the start waits; afterwards the walk and its reports fit. */
  ghost predicate WalkSoFar(g: Digraph, adj: Adjacency, start: NodeId, ids: set<NodeId>, left: set<NodeId>,
      stack: seq<WalkContext>, route: seq<NodeId>, popped: set<NodeId>, reported: seq<seq<NodeId>>)
  {
    && (popped == {} ==> stack == [WalkContext(start, 0)] && route == [] && reported == [] && left == ids)
    && (popped != {} ==> Walking(g, adj, start, ids, left, stack, route, popped))
    && (popped != {} ==> ReportsFit(g, adj, start, stack, route, popped, reported))
  }

  lemma NothingWalked(g: Digraph, adj: Adjacency, start: NodeId, ids: set<NodeId>)
    ensures WalkSoFar(g, adj, start, ids, ids, [WalkContext(start, 0)], [], {}, [])
  {
  }

  lemma TopFits(g: Digraph, adj: Adjacency, start: NodeId, ids: set<NodeId>, left: set<NodeId>,
      stack: seq<WalkContext>, route: seq<NodeId>, popped: set<NodeId>, reported: seq<seq<NodeId>>)
    requires WalkSoFar(g, adj, start, ids, left, stack, route, popped, reported) && stack != []
    ensures stack[|stack| - 1].depth <= |route|
  {
    hide SetsFit, RouteFits, ReportsFit;
    TopDepth(g, stack, route);
  }

  /** One turn of the walk. A node popped a second time has nothing to push and no valid route; any
      other is added to the walk, and reported when it pushes nothing. */
  lemma WalkStep(g: Digraph, adj: Adjacency, start: NodeId, ids: set<NodeId>, left: set<NodeId>,
      base: seq<WalkContext>, c: WalkContext, pushed: seq<WalkContext>, leftAfter: set<NodeId>, route: seq<NodeId>,
      popped: set<NodeId>, reported: seq<seq<NodeId>>)
    requires g == Walkable(adj, ids) && forall u, v :: Step(g, u, v) ==> v in ids
    requires WalkSoFar(g, adj, start, ids, left, base + [c], route, popped, reported) && c.depth <= |route|
    requires Pushed(pushed, Targets(g, c.node), c.depth + 1, left, leftAfter)
    ensures c.node in popped ==> pushed == [] && !IsRoute(adj, Rolled(route, c)) && ReturnsToStart(g, start)
    ensures c.node !in popped ==> IsRoute(adj, Rolled(route, c)) && Rolled(route, c)[0] == start
    ensures c.node !in popped ==>
      WalkSoFar(g, adj, start, ids, leftAfter, base + pushed, Rolled(route, c), popped + {c.node},
        if pushed == [] then reported + [Rolled(route, c)] else reported)
  {
    hide IsRoute, Step, Reaches, ReportsFit, SetsFit, RouteFits, StackFits, ReturnsToStart, Targets;
    if c.node in popped {
      SecondVisit(g, adj, start, ids, left, base, c, route, popped);
      NothingPushed(pushed, Targets(g, c.node), left);
    } else if popped == {} {
      assert (base + [c])[|base|] == c && base == [] && Rolled(route, c) == [start] && popped + {c.node} == {start};
      assert base + pushed == pushed && reported + [Rolled(route, c)] == [[start]];
      FirstVisit(g, adj, start, ids, pushed, leftAfter);
      FirstRoute(adj, start);
      FirstReport(g, adj, start, pushed, leftAfter, if pushed == [] then [[start]] else []);
    } else {
      VisitKeeps(g, adj, start, ids, left, base, c, pushed, leftAfter, route, popped);
      ReportsKeep(g, adj, start, base, c, pushed, route, popped, reported,
        if pushed == [] then reported + [Rolled(route, c)] else reported, left, leftAfter);
    }
  }

  /** The first visit: the start, whose targets are the first to wait. */
  lemma FirstVisit(g: Digraph, adj: Adjacency, start: NodeId, ids: set<NodeId>, pushed: seq<WalkContext>,
      left: set<NodeId>)
    requires forall u, v :: Step(g, u, v) ==> v in ids
    requires Pushed(pushed, Targets(g, start), 1, ids, left)
    ensures Walking(g, adj, start, ids, left, pushed, [start], {start})
  {
    ReachesSelf(g, start);
    forall i | 0 <= i < |pushed| ensures Step(g, start, pushed[i].node) {
      WaitingMember(pushed, i);
    }
    forall v | v in Waiting(pushed) ensures Reaches(g, start, v) {
      ReachesStep(g, start, start, v);
    }
  }

  /** A node popped a second time is the start: an edge led back to it, its targets are all gone,
      and its route repeats it. */
  lemma SecondVisit(g: Digraph, adj: Adjacency, start: NodeId, ids: set<NodeId>, left: set<NodeId>,
      base: seq<WalkContext>, c: WalkContext, route: seq<NodeId>, popped: set<NodeId>)
    requires g == Walkable(adj, ids)
    requires Walking(g, adj, start, ids, left, base + [c], route, popped)
    requires c.node in popped
    ensures c.depth <= |route| && Targets(g, c.node) * left == {}
    ensures !IsRoute(adj, Rolled(route, c))
    ensures ReturnsToStart(g, start)
  {
    assert (base + [c])[|base|] == c;
    WaitingGrows(base, c);
    assert c.node in popped * Waiting(base + [c]);
    RouteKeeps(g, adj, start, ids, base, c, route, popped);
    assert Step(g, route[c.depth - 1], start) && route[c.depth - 1] in popped;
    forall v | v in Targets(g, c.node) ensures v !in left {
      assert Step(g, c.node, v);
    }
  }

  lemma VisitKeeps(g: Digraph, adj: Adjacency, start: NodeId, ids: set<NodeId>, left: set<NodeId>,
      base: seq<WalkContext>, c: WalkContext, pushed: seq<WalkContext>, leftAfter: set<NodeId>, route: seq<NodeId>,
      popped: set<NodeId>)
    requires g == Walkable(adj, ids)
    requires Walking(g, adj, start, ids, left, base + [c], route, popped)
    requires c.node !in popped
    requires Pushed(pushed, Targets(g, c.node), c.depth + 1, left, leftAfter)
    ensures c.depth <= |route|
    ensures Walking(g, adj, start, ids, leftAfter, base + pushed, Rolled(route, c), popped + {c.node})
    ensures IsRoute(adj, Rolled(route, c)) && Rolled(route, c)[0] == start
  {
    hide SetsFit, IsRoute;
    RouteKeeps(g, adj, start, ids, base, c, route, popped);
    BaseApart(g, start, ids, left, base, c, route, popped);
    StackKeeps(g, base, c, pushed, route, left, leftAfter);
    SetsKeep(g, start, ids, left, base, c, pushed, leftAfter, popped);
  }

  lemma BaseApart(g: Digraph, start: NodeId, ids: set<NodeId>, left: set<NodeId>, base: seq<WalkContext>,
      c: WalkContext, route: seq<NodeId>, popped: set<NodeId>)
    requires StackFits(g, base + [c], route)
    requires SetsFit(g, start, ids, left, Waiting(base + [c]), popped)
    ensures Waiting(base) !! left && c.node !in Waiting(base)
  {
    var stack := base + [c];
    WaitingGrows(base, c);
    forall n | n in Waiting(base) ensures n !in left && n != c.node {
      var d :| d in base && d.node == n;
      var i :| 0 <= i < |base| && base[i] == d;
      assert stack[i] == d && stack[|base|] == c;
      assert n in popped + Waiting(stack);
      assert n in left ==> n in (popped + Waiting(stack)) * left;
    }
  }

  lemma ReportsKeep(g: Digraph, adj: Adjacency, start: NodeId, base: seq<WalkContext>, c: WalkContext,
      pushed: seq<WalkContext>, route: seq<NodeId>, popped: set<NodeId>, reported: seq<seq<NodeId>>,
      after: seq<seq<NodeId>>, left: set<NodeId>, leftAfter: set<NodeId>)
    requires c.depth <= |route|
    requires ReportsFit(g, adj, start, base + [c], route, popped, reported)
    requires RouteFits(adj, start, Rolled(route, c), popped + {c.node})
    requires Pushed(pushed, Targets(g, c.node), c.depth + 1, left, leftAfter)
    requires after == if pushed == [] then reported + [Rolled(route, c)] else reported
    ensures ReportsFit(g, adj, start, base + pushed, Rolled(route, c), popped + {c.node}, after)
  {
    hide IsRoute, CoverFits, EndsFit, Pushed, Step;
    var next := Rolled(route, c);
    CoverKeeps(base, c, pushed, route, popped, reported, after, Targets(g, c.node), left, leftAfter);
    assert EndsFit(g, popped + {c.node}, after) by {
      EndsKeep(g, c, pushed, next, popped, reported, after, left, leftAfter);
    }
  }

  lemma CoverKeeps(base: seq<WalkContext>, c: WalkContext, pushed: seq<WalkContext>, route: seq<NodeId>,
      popped: set<NodeId>, reported: seq<seq<NodeId>>, after: seq<seq<NodeId>>, targets: set<NodeId>,
      left: set<NodeId>, leftAfter: set<NodeId>)
    requires c.depth <= |route|
    requires CoverFits(base + [c], route, popped, reported)
    requires Pushed(pushed, targets, c.depth + 1, left, leftAfter)
    requires after == if pushed == [] then reported + [Rolled(route, c)] else reported
    ensures CoverFits(base + pushed, Rolled(route, c), popped + {c.node}, after)
  {
    var next := Rolled(route, c);
    TouchedGrows(reported, next);
    forall n | n in popped && n in route && n !in next ensures n in Touched(reported) {
      assert c.depth < |route|;
      assert route in reported;
    }
    if pushed != [] {
      var stack := base + pushed;
      assert stack[|stack| - 1] == pushed[|pushed| - 1];
    }
  }

  lemma EndsKeep(g: Digraph, c: WalkContext, pushed: seq<WalkContext>, next: seq<NodeId>, popped: set<NodeId>,
      reported: seq<seq<NodeId>>, after: seq<seq<NodeId>>, left: set<NodeId>, leftAfter: set<NodeId>)
    requires EndsFit(g, popped, reported)
    requires next != [] && next[|next| - 1] == c.node
    requires Pushed(pushed, Targets(g, c.node), c.depth + 1, left, leftAfter)
    requires after == if pushed == [] then reported + [next] else reported
    ensures EndsFit(g, popped + {c.node}, after)
  {
    if IsDeadEnd(g, c.node) {
      NothingPushed(pushed, Targets(g, c.node), left);
      assert next in after;
    }
    forall u | u in popped && IsDeadEnd(g, u) ensures EndsAt(after, u) {
      var r :| r in reported && r != [] && r[|r| - 1] == u;
      assert r in after;
    }
  }

  lemma TouchedGrows(routes: seq<seq<NodeId>>, r: seq<NodeId>)
    ensures Touched(routes + [r]) == Touched(routes) + NodesOf(r)
  {
    forall n | n in NodesOf(r) ensures n in Touched(routes + [r]) {
      assert r in routes + [r];
    }
    forall n | n in Touched(routes) ensures n in Touched(routes + [r]) {
      var q :| q in routes && n in q;
      assert q in routes + [r];
    }
  }

  /** When nothing waits any more, the visited nodes are the reachable ones. */
  lemma WalkEnds(g: Digraph, adj: Adjacency, start: NodeId, ids: set<NodeId>, left: set<NodeId>,
      stack: seq<WalkContext>, route: seq<NodeId>, popped: set<NodeId>, reported: seq<seq<NodeId>>)
    requires forall u, v :: Step(g, u, v) ==> v in ids
    requires WalkSoFar(g, adj, start, ids, left, stack, route, popped, reported) && stack == [] && popped != {}
    ensures !ReturnsToStart(g, start)
    ensures forall n :: n in Touched(reported) <==> Reaches(g, start, n)
    ensures forall n :: Reaches(g, start, n) && IsDeadEnd(g, n) ==> EndsAt(reported, n)
    ensures forall r, n :: r in reported && r != [] && Step(g, r[|r| - 1], n) ==> n in Touched(reported)
  {
    hide IsRoute;
    ClosedReaches(g, popped, start);
    forall n | n in popped ensures n in Touched(reported) {
      assert route in reported;
    }
    forall n | n in Touched(reported) ensures n in popped {
      var r :| r in reported && n in r;
    }
    forall r, n | r in reported && r != [] && Step(g, r[|r| - 1], n) ensures n in Touched(reported) {
      assert r[|r| - 1] in r;
    }
  }

  // ----- which routes are reported, and in which order -----

  function Listed(adj: Adjacency, u: NodeId): seq<NodeId> { if u in adj then adj[u] else [] }

  /** a stands in the list before the first b. */
  ghost predicate ListedBefore(list: seq<NodeId>, a: NodeId, b: NodeId) {
    exists k :: 0 <= k < |list| && list[k] == a && b !in list[..k + 1]
  }

  /** No route ends on another one: none is reported where the walk still went on. */
  ghost predicate LeavesApart(routes: seq<seq<NodeId>>) {
    forall i, j :: 0 <= i < |routes| && 0 <= j < |routes| && i != j ==> LeavesOff(routes[i], routes[j])
  }

  ghost predicate LeavesOff(r: seq<NodeId>, s: seq<NodeId>) { r != [] && r[|r| - 1] !in s }

  /** No edge leads from a node of a route to one further down than the next. */
  ghost predicate NoShortCut(g: Digraph, r: seq<NodeId>) {
    forall i, j :: 0 <= i && i + 1 < j < |r| ==> !Step(g, r[i], r[j])
  }

  /** Routes meet in their common beginning only. */
  ghost predicate OneWay(r: seq<NodeId>, s: seq<NodeId>) {
    forall a, b :: 0 <= a < |r| && 0 <= b < |s| && r[a] == s[b] ==> a == b && r[..a] == s[..b]
  }

  /** Where two routes part, the earlier follows the edge listed later. */
  ghost predicate LaterEdgeFirst(adj: Adjacency, r: seq<NodeId>, s: seq<NodeId>) {
    forall k :: 1 <= k < |r| && k < |s| && r[..k] == s[..k] && r[k] != s[k] ==>
      ListedBefore(Listed(adj, r[k - 1]), s[k], r[k])
  }

  /** An edge that leads from a route to a node of a later one leads to the node where they part, or
      to one that hangs off further up: a node is taken by the first that sees it. */
  ghost predicate TakenBefore(g: Digraph, r: seq<NodeId>, s: seq<NodeId>) {
    forall a, b :: 0 <= a < |r| && 0 <= b < |s| && Step(g, r[a], s[b]) && s[b] !in r ==>
      b <= a + 1 && b <= |r| && r[..b] == s[..b]
  }

  /** How a reported route lies to a later one. */
  ghost predicate Earlier(g: Digraph, adj: Adjacency, r: seq<NodeId>, s: seq<NodeId>) {
    OneWay(r, s) && LaterEdgeFirst(adj, r, s) && TakenBefore(g, r, s)
  }

  ghost predicate DepthFirst(g: Digraph, adj: Adjacency, routes: seq<seq<NodeId>>) {
    && (forall i, j :: 0 <= i < j < |routes| ==> Earlier(g, adj, routes[i], routes[j]))
    && (forall i :: 0 <= i < |routes| ==> NoShortCut(g, routes[i]))
  }

  /** How a route lies to a context that waits at the current one. */
  ghost predicate Awaits(g: Digraph, adj: Adjacency, r: seq<NodeId>, route: seq<NodeId>, c: WalkContext) {
    && 1 <= c.depth <= |route|
    && (c.depth < |r| && r[..c.depth] == route[..c.depth] ==>
      ListedBefore(Listed(adj, route[c.depth - 1]), c.node, r[c.depth]))
    && (forall a :: 0 <= a < |r| && Step(g, r[a], c.node) ==>
      c.depth <= a + 1 && c.depth <= |r| && r[..c.depth] == route[..c.depth])
  }

  ghost predicate StackInOrder(adj: Adjacency, stack: seq<WalkContext>, route: seq<NodeId>) {
    && (forall i :: 0 <= i < |stack| ==> 1 <= stack[i].depth <= |route|)
    && (forall i, j :: 0 <= i < j < |stack| ==> stack[i].depth <= stack[j].depth)
    && (forall i, j :: 0 <= i < j < |stack| && stack[i].depth == stack[j].depth ==>
      ListedBefore(Listed(adj, route[stack[i].depth - 1]), stack[i].node, stack[j].node))
  }

  /** How a reported route lies to the current one and to all that waits. */
  ghost predicate ReportInOrder(g: Digraph, adj: Adjacency, stack: seq<WalkContext>, route: seq<NodeId>,
      r: seq<NodeId>)
  {
    && NoShortCut(g, r)
    && (if r == route then forall i :: 0 <= i < |stack| ==> stack[i].depth < |route|
        else Earlier(g, adj, r, route) && LeavesOff(r, route))
    && (forall i :: 0 <= i < |stack| ==> Awaits(g, adj, r, route, stack[i]))
  }

  ghost predicate RouteInOrder(g: Digraph, adj: Adjacency, stack: seq<WalkContext>, route: seq<NodeId>) {
    && NoShortCut(g, route)
    && (forall i :: 0 <= i < |stack| ==> Awaits(g, adj, route, route, stack[i]))
  }

  ghost predicate InOrder(g: Digraph, adj: Adjacency, stack: seq<WalkContext>, route: seq<NodeId>,
      popped: set<NodeId>, reported: seq<seq<NodeId>>)
  {
    && DepthFirst(g, adj, reported) && LeavesApart(reported)
    && (popped != {} ==> StackInOrder(adj, stack, route) && RouteInOrder(g, adj, stack, route))
    && (popped != {} ==> forall i :: 0 <= i < |reported| ==> ReportInOrder(g, adj, stack, route, reported[i]))
  }

  ghost predicate PushedInOrder(list: seq<NodeId>, pushed: seq<WalkContext>) {
    forall i, j :: 0 <= i < j < |pushed| ==> ListedBefore(list, pushed[i].node, pushed[j].node)
  }

  lemma PopOneWay(r: seq<NodeId>, route: seq<NodeId>, c: WalkContext)
    requires c.depth <= |route| && c.node !in r
    requires r == route || OneWay(r, route)
    requires forall i, j :: 0 <= i < j < |r| ==> r[i] != r[j]
    ensures OneWay(r, Rolled(route, c))
  {
    var next := Rolled(route, c);
    assert forall k :: 0 <= k <= c.depth ==> next[..k] == route[..k];
    assert forall k :: 0 <= k < c.depth ==> next[k] == route[k];
  }

  lemma PopLaterEdge(g: Digraph, adj: Adjacency, r: seq<NodeId>, route: seq<NodeId>, c: WalkContext)
    requires Awaits(g, adj, r, route, c)
    requires r == route || LaterEdgeFirst(adj, r, route)
    ensures LaterEdgeFirst(adj, r, Rolled(route, c))
  {
    hide ListedBefore, Step;
    var next := Rolled(route, c);
    assert forall k :: 0 <= k <= c.depth ==> next[..k] == route[..k];
    assert forall k :: 0 <= k < c.depth ==> next[k] == route[k];
    forall k | 1 <= k < |r| && k < |next| && r[..k] == next[..k] && r[k] != next[k]
      ensures ListedBefore(Listed(adj, r[k - 1]), next[k], r[k])
    {
      assert r[k - 1] == r[..k][k - 1] == next[..k][k - 1] == next[k - 1];
    }
  }

  lemma PopTakenBefore(g: Digraph, adj: Adjacency, r: seq<NodeId>, route: seq<NodeId>, c: WalkContext)
    requires Awaits(g, adj, r, route, c)
    requires r == route || TakenBefore(g, r, route)
    ensures TakenBefore(g, r, Rolled(route, c))
  {
    hide ListedBefore, Step;
    var next := Rolled(route, c);
    assert forall k :: 0 <= k <= c.depth ==> next[..k] == route[..k];
    assert forall k :: 0 <= k < c.depth ==> next[k] == route[k];
  }

  lemma PopEarlier(g: Digraph, adj: Adjacency, r: seq<NodeId>, route: seq<NodeId>, c: WalkContext)
    requires Awaits(g, adj, r, route, c) && c.node !in r
    requires r == route || Earlier(g, adj, r, route)
    requires forall i, j :: 0 <= i < j < |r| ==> r[i] != r[j]
    ensures Earlier(g, adj, r, Rolled(route, c))
  {
    PopOneWay(r, route, c);
    PopLaterEdge(g, adj, r, route, c);
    PopTakenBefore(g, adj, r, route, c);
    hide ListedBefore, Step, OneWay, LaterEdgeFirst, TakenBefore;
  }

  lemma PopLeavesOff(r: seq<NodeId>, route: seq<NodeId>, c: WalkContext)
    requires c.depth <= |route| && c.node !in r && r != []
    requires if r == route then c.depth < |route| else LeavesOff(r, route)
    requires forall i, j :: 0 <= i < j < |r| ==> r[i] != r[j]
    ensures LeavesOff(r, Rolled(route, c))
  {
    var next := Rolled(route, c);
    forall k | 0 <= k < |next| ensures next[k] != r[|r| - 1] {
      if k < c.depth { assert next[k] == route[k] && route[k] in route; } else { assert r[|r| - 1] in r; }
    }
  }

  /** What waits below the popped context waits at the new route as it did at the old one. */
  lemma StillAwaits(g: Digraph, adj: Adjacency, r: seq<NodeId>, route: seq<NodeId>, c: WalkContext, d: WalkContext)
    requires c.depth <= |route| && d.depth <= c.depth
    requires Awaits(g, adj, r, route, d)
    ensures Awaits(g, adj, r, Rolled(route, c), d)
  {
    hide ListedBefore, Step;
    var next := Rolled(route, c);
    assert next[..d.depth] == route[..d.depth] && next[d.depth - 1] == route[d.depth - 1];
  }

  lemma NextAwaits(g: Digraph, adj: Adjacency, route: seq<NodeId>, c: WalkContext, d: WalkContext)
    requires c.depth <= |route| && d.depth <= c.depth
    requires Awaits(g, adj, route, route, d)
    requires d.depth == c.depth ==> ListedBefore(Listed(adj, route[d.depth - 1]), d.node, c.node)
    ensures Awaits(g, adj, Rolled(route, c), Rolled(route, c), d)
  {
    hide ListedBefore, Step;
    var next := Rolled(route, c);
    assert next[d.depth - 1] == route[d.depth - 1];
    assert forall k :: 0 <= k < c.depth ==> next[k] == route[k];
  }

  lemma SameStart(r: seq<NodeId>, s: seq<NodeId>, k: nat)
    requires k < |s|
    ensures k < |r| && r[..k + 1] == s[..k + 1] ==> s[k] in r
  {
    if k < |r| && r[..k + 1] == s[..k + 1] { assert r[k] == r[..k + 1][k] == s[..k + 1][k]; }
  }

  /** A node pushed just now hangs off the popped one, and no other visited node has an edge to it. */
  lemma PushedAwaits(g: Digraph, adj: Adjacency, r: seq<NodeId>, route: seq<NodeId>, c: WalkContext, d: WalkContext)
    requires c.depth <= |route| && d.depth == c.depth + 1
    requires r == Rolled(route, c) || c.node !in r
    requires forall a :: 0 <= a < |r| && r[a] != c.node ==> !Step(g, r[a], d.node)
    requires forall i :: 0 <= i < c.depth ==> route[i] != c.node
    ensures Awaits(g, adj, r, Rolled(route, c), d)
  {
    hide ListedBefore, Step;
    var next := Rolled(route, c);
    assert next[c.depth] == c.node;
    SameStart(r, next, c.depth);
    forall a | 0 <= a < |r| && Step(g, r[a], d.node) ensures d.depth <= a + 1 && r == next {
      assert r[a] == c.node;
    }
  }

  /** The popped context's node ends a new route; what waits below it waits on. */
  lemma RoutePops(g: Digraph, adj: Adjacency, base: seq<WalkContext>, c: WalkContext, route: seq<NodeId>)
    requires StackInOrder(adj, base + [c], route) && RouteInOrder(g, adj, base + [c], route)
    ensures 1 <= c.depth <= |route|
    ensures StackInOrder(adj, base, Rolled(route, c)) && RouteInOrder(g, adj, base, Rolled(route, c))
    ensures forall i :: 0 <= i < |base| ==> base[i].depth <= c.depth
  {
    hide ListedBefore, Step, Awaits;
    var stack, next := base + [c], Rolled(route, c);
    assert stack[|base|] == c && forall i :: 0 <= i < |base| ==> stack[i] == base[i];
    assert forall k :: 0 <= k < c.depth ==> next[k] == route[k];
    forall i | 0 <= i < |base|
      ensures base[i].depth <= c.depth && Awaits(g, adj, next, next, base[i])
    {
      assert stack[i].depth <= stack[|base|].depth;
      NextAwaits(g, adj, route, c, base[i]);
    }
    CutShort(g, adj, route, c);
  }

  lemma CutShort(g: Digraph, adj: Adjacency, route: seq<NodeId>, c: WalkContext)
    requires NoShortCut(g, route) && Awaits(g, adj, route, route, c)
    ensures NoShortCut(g, Rolled(route, c))
  {
    hide ListedBefore, Step;
    var next := Rolled(route, c);
    assert forall k :: 0 <= k < c.depth ==> next[k] == route[k];
  }

  lemma ReportPops(g: Digraph, adj: Adjacency, base: seq<WalkContext>, c: WalkContext, route: seq<NodeId>,
      r: seq<NodeId>)
    requires StackInOrder(adj, base + [c], route) && ReportInOrder(g, adj, base + [c], route, r)
    requires c.node !in r && IsRoute(adj, r)
    ensures 1 <= c.depth <= |route|
    ensures ReportInOrder(g, adj, base, Rolled(route, c), r) && r != Rolled(route, c)
    ensures Earlier(g, adj, r, Rolled(route, c)) && LeavesOff(r, Rolled(route, c))
  {
    hide ListedBefore, Step, Awaits, Earlier, LeavesOff, NoShortCut;
    var stack, next := base + [c], Rolled(route, c);
    assert stack[|base|] == c && forall i :: 0 <= i < |base| ==> stack[i] == base[i];
    PopEarlier(g, adj, r, route, c);
    PopLeavesOff(r, route, c);
    forall i | 0 <= i < |base| ensures Awaits(g, adj, r, next, base[i]) {
      assert stack[i].depth <= stack[|base|].depth;
      StillAwaits(g, adj, r, route, c, base[i]);
    }
    assert next[|next| - 1] == c.node && c.node in next;
  }

  lemma StackJoins(adj: Adjacency, base: seq<WalkContext>, c: WalkContext, pushed: seq<WalkContext>,
      next: seq<NodeId>)
    requires StackInOrder(adj, base, next) && forall i :: 0 <= i < |base| ==> base[i].depth <= c.depth
    requires |next| == c.depth + 1 && next[c.depth] == c.node
    requires forall i :: 0 <= i < |pushed| ==> pushed[i].depth == c.depth + 1
    requires PushedInOrder(Listed(adj, c.node), pushed)
    ensures StackInOrder(adj, base + pushed, next)
  {
    hide ListedBefore;
    var stack := base + pushed;
    assert forall i :: 0 <= i < |base| ==> stack[i] == base[i];
    assert forall i :: |base| <= i < |stack| ==> stack[i] == pushed[i - |base|];
  }

  /** What the popped node pushed waits at its route. */
  lemma PushesAwait(g: Digraph, adj: Adjacency, base: seq<WalkContext>, c: WalkContext, pushed: seq<WalkContext>,
      route: seq<NodeId>, r: seq<NodeId>)
    requires c.depth <= |route| && forall i :: 0 <= i < c.depth ==> route[i] != c.node
    requires forall i :: 0 <= i < |base| ==> Awaits(g, adj, r, Rolled(route, c), base[i])
    requires forall i :: 0 <= i < |pushed| ==> pushed[i].depth == c.depth + 1
    requires r == Rolled(route, c) || c.node !in r
    requires forall i, a :: 0 <= i < |pushed| && 0 <= a < |r| && r[a] != c.node ==> !Step(g, r[a], pushed[i].node)
    ensures forall i :: 0 <= i < |base + pushed| ==> Awaits(g, adj, r, Rolled(route, c), (base + pushed)[i])
  {
    hide ListedBefore, Step, Awaits;
    var stack := base + pushed;
    forall i | 0 <= i < |stack| ensures Awaits(g, adj, r, Rolled(route, c), stack[i]) {
      if i < |base| {
        assert stack[i] == base[i];
      } else {
        assert stack[i] == pushed[i - |base|];
        PushedAwaits(g, adj, r, route, c, pushed[i - |base|]);
      }
    }
  }

  /** No visited node has an edge to a free one. */
  lemma PushedAreNew(g: Digraph, start: NodeId, ids: set<NodeId>, left: set<NodeId>, waiting: set<NodeId>,
      popped: set<NodeId>, c: WalkContext, pushed: seq<WalkContext>, leftAfter: set<NodeId>)
    requires SetsFit(g, start, ids, left, waiting, popped)
    requires Pushed(pushed, Targets(g, c.node), c.depth + 1, left, leftAfter)
    ensures forall i, u :: 0 <= i < |pushed| && u in popped ==> !Step(g, u, pushed[i].node)
  {
    forall i | 0 <= i < |pushed| ensures pushed[i].node in left {
      WaitingMember(pushed, i);
    }
  }

  lemma FirstOrder(g: Digraph, adj: Adjacency, start: NodeId, pushed: seq<WalkContext>, left: set<NodeId>,
      leftAfter: set<NodeId>)
    requires Pushed(pushed, Targets(g, start), 1, left, leftAfter)
    requires PushedInOrder(Listed(adj, start), pushed)
    ensures InOrder(g, adj, pushed, [start], {start}, if pushed == [] then [[start]] else [])
  {
    hide ListedBefore;
  }

  /** The reports after a turn: those before, and perhaps the new route. */
  lemma ReportsJoin(g: Digraph, adj: Adjacency, stack: seq<WalkContext>, next: seq<NodeId>, node: NodeId,
      reported: seq<seq<NodeId>>)
    requires DepthFirst(g, adj, reported) && LeavesApart(reported)
    requires forall i :: 0 <= i < |reported| ==> Earlier(g, adj, reported[i], next) && LeavesOff(reported[i], next)
    requires next != [] && next[|next| - 1] == node && NoShortCut(g, next)
    requires forall i :: 0 <= i < |reported| ==> node !in reported[i]
    ensures DepthFirst(g, adj, reported + [next]) && LeavesApart(reported + [next])
  {
    hide Earlier, NoShortCut;
    var after := reported + [next];
    assert forall i :: 0 <= i < |reported| ==> after[i] == reported[i];
  }

  lemma ReportsAwait(g: Digraph, adj: Adjacency, base: seq<WalkContext>, c: WalkContext, pushed: seq<WalkContext>,
      route: seq<NodeId>, popped: set<NodeId>, r: seq<NodeId>)
    requires StackInOrder(adj, base + [c], route) && ReportInOrder(g, adj, base + [c], route, r)
    requires c.node !in popped && IsRoute(adj, r) && IsRoute(adj, route)
    requires (forall n :: n in r ==> n in popped) && (forall n :: n in route ==> n in popped)
    requires forall i :: 0 <= i < |pushed| ==> pushed[i].depth == c.depth + 1
    requires forall i, u :: 0 <= i < |pushed| && u in popped ==> !Step(g, u, pushed[i].node)
    ensures 1 <= c.depth <= |route|
    ensures ReportInOrder(g, adj, base + pushed, Rolled(route, c), r)
    ensures Earlier(g, adj, r, Rolled(route, c)) && LeavesOff(r, Rolled(route, c)) && c.node !in r
  {
    hide ListedBefore, Step, Awaits, Earlier, NoShortCut;
    ReportPops(g, adj, base, c, route, r);
    forall i | 0 <= i < c.depth ensures route[i] != c.node { assert route[i] in route; }
    forall i, a | 0 <= i < |pushed| && 0 <= a < |r| ensures !Step(g, r[a], pushed[i].node) { assert r[a] in r; }
    PushesAwait(g, adj, base, c, pushed, route, r);
  }

  lemma RouteAwaits(g: Digraph, adj: Adjacency, base: seq<WalkContext>, c: WalkContext, pushed: seq<WalkContext>,
      route: seq<NodeId>, popped: set<NodeId>)
    requires StackInOrder(adj, base + [c], route) && RouteInOrder(g, adj, base + [c], route)
    requires c.node !in popped && forall n :: n in route ==> n in popped
    requires forall i :: 0 <= i < |pushed| ==> pushed[i].depth == c.depth + 1
    requires forall i, u :: 0 <= i < |pushed| && u in popped ==> !Step(g, u, pushed[i].node)
    requires PushedInOrder(Listed(adj, c.node), pushed)
    ensures 1 <= c.depth <= |route|
    ensures forall i :: 0 <= i < |base| ==> base[i].depth <= c.depth
    ensures StackInOrder(adj, base + pushed, Rolled(route, c))
    ensures RouteInOrder(g, adj, base + pushed, Rolled(route, c))
  {
    hide ListedBefore, Step, Awaits, NoShortCut, PushedInOrder;
    RoutePops(g, adj, base, c, route);
    var next := Rolled(route, c);
    forall i | 0 <= i < c.depth ensures route[i] != c.node { assert route[i] in route; }
    forall i, a | 0 <= i < |pushed| && 0 <= a < |next| && next[a] != c.node
      ensures !Step(g, next[a], pushed[i].node)
    {
      assert a < c.depth && next[a] == route[a] && route[a] in route;
    }
    PushesAwait(g, adj, base, c, pushed, route, next);
    StackJoins(adj, base, c, pushed, next);
  }

  /** A node visited for the first time keeps the order of the reports. */
  lemma OrderStep(g: Digraph, adj: Adjacency, start: NodeId, ids: set<NodeId>, left: set<NodeId>,
      base: seq<WalkContext>, c: WalkContext, pushed: seq<WalkContext>, leftAfter: set<NodeId>, route: seq<NodeId>,
      popped: set<NodeId>, reported: seq<seq<NodeId>>)
    requires WalkSoFar(g, adj, start, ids, left, base + [c], route, popped, reported) && c.depth <= |route|
    requires InOrder(g, adj, base + [c], route, popped, reported)
    requires Pushed(pushed, Targets(g, c.node), c.depth + 1, left, leftAfter)
    requires PushedInOrder(Listed(adj, c.node), pushed)
    requires c.node !in popped
    ensures InOrder(g, adj, base + pushed, Rolled(route, c), popped + {c.node},
      if pushed == [] then reported + [Rolled(route, c)] else reported)
  {
    hide IsRoute, Step, Targets, StackFits, SetsFit, StackInOrder, RouteInOrder, Awaits, Earlier, NoShortCut,
      PushedInOrder;
    var next := Rolled(route, c);
    if popped == {} {
      assert (base + [c])[|base|] == c && base == [] && next == [start] && popped + {c.node} == {start};
      assert base + pushed == pushed && reported + [next] == [[start]];
      FirstOrder(g, adj, start, pushed, left, leftAfter);
    } else {
      PushedAreNew(g, start, ids, left, Waiting(base + [c]), popped, c, pushed, leftAfter);
      RouteAwaits(g, adj, base, c, pushed, route, popped);
      forall i | 0 <= i < |reported|
        ensures ReportInOrder(g, adj, base + pushed, next, reported[i])
        ensures Earlier(g, adj, reported[i], next) && LeavesOff(reported[i], next) && c.node !in reported[i]
      {
        assert reported[i] in reported;
        ReportsAwait(g, adj, base, c, pushed, route, popped, reported[i]);
      }
      NewReport(g, adj, base, c, pushed, next, popped + {c.node}, reported);
    }
  }

  lemma NewReport(g: Digraph, adj: Adjacency, base: seq<WalkContext>, c: WalkContext, pushed: seq<WalkContext>,
      next: seq<NodeId>, popped: set<NodeId>, reported: seq<seq<NodeId>>)
    requires DepthFirst(g, adj, reported) && LeavesApart(reported)
    requires StackInOrder(adj, base + pushed, next) && RouteInOrder(g, adj, base + pushed, next)
    requires |next| == c.depth + 1 && next[c.depth] == c.node
    requires forall i :: 0 <= i < |base| ==> base[i].depth <= c.depth
    requires forall i :: 0 <= i < |reported| ==> ReportInOrder(g, adj, base + pushed, next, reported[i])
    requires forall i :: 0 <= i < |reported| ==> Earlier(g, adj, reported[i], next) && LeavesOff(reported[i], next)
    requires forall i :: 0 <= i < |reported| ==> c.node !in reported[i]
    ensures InOrder(g, adj, base + pushed, next, popped,
      if pushed == [] then reported + [next] else reported)
  {
    hide Step, Awaits, Earlier, LeavesOff, NoShortCut;
    if pushed == [] {
      assert base + pushed == base;
      ReportsJoin(g, adj, base, next, c.node, reported);
      var after := reported + [next];
      forall i | 0 <= i < |after| ensures ReportInOrder(g, adj, base, next, after[i]) {
        if i < |reported| { assert after[i] == reported[i]; }
      }
    }
  }

  lemma NoOrder(g: Digraph, adj: Adjacency, stack: seq<WalkContext>)
    ensures InOrder(g, adj, stack, [], {}, [])
  {
  }

  lemma ReportedInOrder(g: Digraph, adj: Adjacency, stack: seq<WalkContext>, route: seq<NodeId>, popped: set<NodeId>,
      reported: seq<seq<NodeId>>)
    requires InOrder(g, adj, stack, route, popped, reported)
    ensures DepthFirst(g, adj, reported) && LeavesApart(reported)
  {
  }

  class RoutingGraph {
    var nodes: set<NodeId>
    var edgesFrom: Adjacency
    var edgesTo: Adjacency

    /** The two dictionaries list the same edges, once from each end. */
    ghost predicate Valid()
      reads this
    {
      forall a, b :: Linked(edgesFrom, a, b) <==> Linked(edgesTo, b, a)
    }

    constructor ()
      ensures Valid() && nodes == {} && edgesFrom == map[] && edgesTo == map[]
    {
      nodes, edgesFrom, edgesTo := {}, map[], map[];
    }

    method AddNode(id: NodeId)
      requires Valid()
      modifies this`nodes
      ensures Valid() && nodes == old(nodes) + {id}
    {
      nodes := nodes + {id};
    }

    method AddEdge(src: NodeId, dst: NodeId)
      requires Valid()
      modifies this`edgesFrom, this`edgesTo
      ensures Valid()
      ensures forall a, b :: Linked(edgesFrom, a, b) <==> Linked(old(edgesFrom), a, b) || (a == src && b == dst)
    {
      edgesFrom := AppendEdge(edgesFrom, src, dst);
      edgesTo := AppendEdge(edgesTo, dst, src);
    }

    function Edges(direction: int): Adjacency
      reads this
    {
      if direction > 0 then edgesFrom else if direction < 0 then edgesTo else map[]
    }

    /** True exactly for a path along the edges that repeats no node. */
    method VerifyRoute(route: seq<NodeId>, direction: int) returns (ok: bool)
      requires route != []
      ensures ok <==> IsRoute(Edges(direction), route)
    {
      var visited: set<NodeId> := {};
      for i := 0 to |route| - 1
        invariant forall k :: 0 <= k < i ==> Linked(Edges(direction), route[k], route[k + 1])
        invariant forall j, k :: 0 <= j < k < i ==> route[j] != route[k]
        invariant forall k :: 0 <= k < i ==> route[k] in visited
        invariant forall n :: n in visited ==> exists k :: 0 <= k < i && route[k] == n
      {
        var edgeValid := false;
        if direction > 0 {
          if route[i] in edgesFrom { edgeValid := route[i + 1] in edgesFrom[route[i]]; }
        }
        if direction < 0 {
          if route[i] in edgesTo { edgeValid := route[i + 1] in edgesTo[route[i]]; }
        }
        if !edgeValid {
          assert !Linked(Edges(direction), route[i], route[i + 1]);
          return false;
        }
        if route[i] in visited {
          return false;
        }
        visited := visited + {route[i]};
      }
      return route[|route| - 1] !in visited;
    }

    /** Pushes the targets of the node just reached that nobody has visited yet. */
    method PushTargets(node: NodeId, depth: nat, direction: int, stack: seq<WalkContext>, left: set<NodeId>)
      returns (stackAfter: seq<WalkContext>, leftAfter: set<NodeId>, isLeaf: bool, ghost pushed: seq<WalkContext>)
      requires left <= nodes
      ensures stackAfter == stack + pushed && (isLeaf <==> pushed == []) && leftAfter <= left
      ensures |leftAfter| + |pushed| == |left|
      ensures Pushed(pushed, Targets(Walkable(Edges(direction), nodes), node), depth, left, leftAfter)
      ensures PushedInOrder(Listed(Edges(direction), node), pushed)
    {
      hide Pushed, NodesOf, Walkable, PushedInOrder;
      stackAfter, leftAfter, isLeaf, pushed := stack, left, true, [];
      NonePushed(depth, left);
      var targets := if node in Edges(direction) then Edges(direction)[node] else [];
      for i := 0 to |targets|
        invariant stackAfter == stack + pushed && (isLeaf <==> pushed == [])
        invariant |leftAfter| + |pushed| == |left| && leftAfter <= left
        invariant Pushed(pushed, NodesOf(targets[..i]), depth, left, leftAfter)
        invariant PushedInOrder(targets[..i], pushed)
      {
        ghost var dst := targets[i];
        NodesGrow(targets, i);
        OrderGrows(targets, i, pushed, depth, left, leftAfter);
        PushOne(pushed, NodesOf(targets[..i]), depth, left, leftAfter, dst);
        if targets[i] in leftAfter {
          assert stack + pushed + [WalkContext(dst, depth)] == stack + (pushed + [WalkContext(dst, depth)]);
          stackAfter := stackAfter + [WalkContext(targets[i], depth)];
          pushed := pushed + [WalkContext(dst, depth)];
          leftAfter := leftAfter - {targets[i]};
          isLeaf := false;
        }
      }
      assert targets[..|targets|] == targets;
      TargetsOf(Edges(direction), nodes, node, pushed, depth, left, leftAfter);
    }

    /** Walks the graph depth first, reporting the route to every node from which nothing new can
        be reached, until the callback says stop. */
    method Walk(start: NodeId, callback: Callback, direction: int)
      returns (outcome: Outcome, reported: seq<seq<NodeId>>)
      // Every reported route is a simple path from the start.
      ensures forall r :: r in reported ==> IsRoute(Edges(direction), r) && r[0] == start
      // The walk goes on exactly as long as the callback allows.
      ensures outcome != Stopped ==> AllAccepted(callback, reported)
      ensures outcome == Stopped ==> reported != [] && !callback(reported)
      ensures outcome == Stopped ==> AllAccepted(callback, reported[..|reported| - 1])
      // "The route was invalid!" can only be raised when an edge leads back to the start.
      ensures outcome == InvalidRoute ==> ReturnsToStart(Walkable(Edges(direction), nodes), start)
      ensures outcome == Finished ==> !ReturnsToStart(Walkable(Edges(direction), nodes), start)
      // A finished walk has touched exactly what can be reached, and has a route to every dead end.
      ensures outcome == Finished ==>
        forall n :: n in Touched(reported) <==> Reaches(Walkable(Edges(direction), nodes), start, n)
      ensures outcome == Finished ==>
        forall n :: Reaches(Walkable(Edges(direction), nodes), start, n)
          && IsDeadEnd(Walkable(Edges(direction), nodes), n)
          ==> EndsAt(reported, n)
      // A route is reported only where nothing new can be visited: no route ends on another one, and
      // in the end all that can be visited from its last node is on a route.
      ensures LeavesApart(reported)
      ensures outcome == Finished ==>
        forall r, n :: r in reported && r != [] && Step(Walkable(Edges(direction), nodes), r[|r| - 1], n)
          ==> n in Touched(reported)
      // The routes come depth first, edges listed last being followed first.
      ensures DepthFirst(Walkable(Edges(direction), nodes), Edges(direction), reported)
    {
      hide Walkable, IsRoute, Reaches, ReturnsToStart, WalkSoFar, Touched, EndsAt, Targets, InOrder, PushedInOrder,
        Step, DepthFirst, LeavesApart, IsDeadEnd, Pushed;
      ghost var g, adj := Walkable(Edges(direction), nodes), Edges(direction);
      StepsStay(adj, nodes);
      var left := nodes;
      var stack := [WalkContext(start, 0)];
      var route: seq<NodeId> := [];
      reported := [];
      ghost var popped: set<NodeId> := {};
      NothingWalked(g, adj, start, nodes);
      NoOrder(g, adj, stack);
      while |stack| > 0
        invariant left <= nodes && (|stack| == 0 ==> popped != {})
        invariant WalkSoFar(g, adj, start, nodes, left, stack, route, popped, reported)
        invariant InOrder(g, adj, stack, route, popped, reported)
        invariant AllAccepted(callback, reported)
        invariant forall r :: r in reported ==> IsRoute(adj, r) && r != [] && r[0] == start
        decreases |left| + |stack|
      {
        ghost var stack0, route0, left0 := stack, route, left;
        var context := stack[|stack| - 1];
        stack := stack[..|stack| - 1];
        ghost var base := stack;
        assert base + [context] == stack0;
        TopFits(g, adj, start, nodes, left, stack0, route0, popped, reported);
        if context.depth < |route| {
          route := route[..context.depth];
        }
        route := route + [context.node];
        var isLeaf;
        ghost var pushed;
        stack, left, isLeaf, pushed := PushTargets(context.node, context.depth + 1, direction, stack, left);
        assert route == Rolled(route0, context);
        WalkStep(g, adj, start, nodes, left0, base, context, pushed, left, route0, popped, reported);
        if context.node !in popped {
          OrderStep(g, adj, start, nodes, left0, base, context, pushed, left, route0, popped, reported);
        }
        ReportedInOrder(g, adj, stack0, route0, popped, reported);
        if isLeaf {
          var ok := VerifyRoute(route, direction);
          if !ok {
            return InvalidRoute, reported;
          }
          AcceptedGrows(callback, reported, route);
          reported := reported + [route];
          if !callback(reported) {
            ReportedInOrder(g, adj, stack, route, popped + {context.node}, reported);
            return Stopped, reported;
          }
        }
        popped := popped + {context.node};
      }
      WalkEnds(g, adj, start, nodes, left, stack, route, popped, reported);
      ReportedInOrder(g, adj, stack, route, popped, reported);
      outcome := Finished;
    }
  }

  lemma NodesGrow(s: seq<NodeId>, i: nat)
    requires i < |s|
    ensures NodesOf(s[..i + 1]) == NodesOf(s[..i]) + {s[i]}
  {
  }

  lemma AcceptedGrows(callback: Callback, routes: seq<seq<NodeId>>, r: seq<NodeId>)
    requires AllAccepted(callback, routes)
    ensures (routes + [r])[..|routes|] == routes
    ensures callback(routes + [r]) ==> AllAccepted(callback, routes + [r])
  {
    var after := routes + [r];
    forall i | 1 <= i <= |after| && callback(after) ensures callback(after[..i]) {
      assert i <= |routes| ==> after[..i] == routes[..i];
      assert i == |after| ==> after[..i] == after;
    }
  }

  /** A target pushed now is listed after those pushed before. */
  lemma OrderGrows(targets: seq<NodeId>, i: nat, pushed: seq<WalkContext>, depth: nat, left: set<NodeId>,
      leftAfter: set<NodeId>)
    requires i < |targets| && PushedInOrder(targets[..i], pushed)
    requires Pushed(pushed, NodesOf(targets[..i]), depth, left, leftAfter)
    ensures PushedInOrder(targets[..i + 1], pushed)
    ensures targets[i] in leftAfter ==> PushedInOrder(targets[..i + 1], pushed + [WalkContext(targets[i], depth)])
  {
    forall a, b | ListedBefore(targets[..i], a, b) ensures ListedBefore(targets[..i + 1], a, b) {
      var k :| 0 <= k < i && targets[k] == a && b !in targets[..i][..k + 1];
      assert targets[..i][..k + 1] == targets[..i + 1][..k + 1];
    }
    forall j | 0 <= j < |pushed| && targets[i] in leftAfter
      ensures ListedBefore(targets[..i + 1], pushed[j].node, targets[i])
    {
      WaitingMember(pushed, j);
      var k :| 0 <= k < i && targets[k] == pushed[j].node;
      assert targets[i] !in NodesOf(targets[..i]);
      assert targets[..i + 1][..k + 1] <= targets[..i];
    }
  }

  lemma NonePushed(depth: nat, left: set<NodeId>)
    ensures Pushed([], NodesOf([]), depth, left, left) && PushedInOrder([], [])
  {
  }

  lemma PushOne(pushed: seq<WalkContext>, targets: set<NodeId>, depth: nat, left: set<NodeId>,
      leftAfter: set<NodeId>, dst: NodeId)
    requires Pushed(pushed, targets, depth, left, leftAfter)
    ensures if dst in leftAfter
      then Pushed(pushed + [WalkContext(dst, depth)], targets + {dst}, depth, left, leftAfter - {dst})
      else Pushed(pushed, targets + {dst}, depth, left, leftAfter)
  {
    WaitingGrows(pushed, WalkContext(dst, depth));
    if dst in leftAfter {
      forall i | 0 <= i < |pushed| ensures pushed[i].node != dst { WaitingMember(pushed, i); }
    }
  }

  /** Pushing all listed targets is pushing the walkable ones: the free nodes are graph nodes. */
  lemma TargetsOf(adj: Adjacency, ids: set<NodeId>, node: NodeId, pushed: seq<WalkContext>, depth: nat,
      left: set<NodeId>, leftAfter: set<NodeId>)
    requires left <= ids
    requires Pushed(pushed, NodesOf(if node in adj then adj[node] else []), depth, left, leftAfter)
    ensures Pushed(pushed, Targets(Walkable(adj, ids), node), depth, left, leftAfter)
  {
    var all, walkable := NodesOf(if node in adj then adj[node] else []), Targets(Walkable(adj, ids), node);
    assert walkable == all * ids;
    assert all * left == walkable * left && left - all == left - walkable;
  }

  /** With a callback that always continues, whether the walk finishes or raises depends only on
      whether an edge leads back to the start. */
  method WalkAll(graph: RoutingGraph, start: NodeId, direction: int)
      returns (outcome: Outcome, reported: seq<seq<NodeId>>)
    ensures outcome == if ReturnsToStart(Walkable(graph.Edges(direction), graph.nodes), start) then InvalidRoute
      else Finished
    ensures outcome == Finished ==>
      forall n :: n in Touched(reported) <==> Reaches(Walkable(graph.Edges(direction), graph.nodes), start, n)
    ensures LeavesApart(reported)
    ensures outcome == Finished ==>
      forall r, n :: r in reported && r != [] && Step(Walkable(graph.Edges(direction), graph.nodes), r[|r| - 1], n)
        ==> n in Touched(reported)
    ensures DepthFirst(Walkable(graph.Edges(direction), graph.nodes), graph.Edges(direction), reported)
  {
    hide Walkable, IsRoute, Reaches, ReturnsToStart, Touched, DepthFirst, LeavesApart, Step;
    outcome, reported := graph.Walk(start, _ => true, direction);
  }

  lemma NothingPushed(pushed: seq<WalkContext>, targets: set<NodeId>, left: set<NodeId>)
    requires Waiting(pushed) == targets * left && targets * left == {}
    ensures pushed == []
  {
    if pushed != [] { WaitingMember(pushed, 0); }
  }

  lemma FirstRoute(adj: Adjacency, start: NodeId)
    ensures IsRoute(adj, [start])
  {
  }

  lemma FirstReport(g: Digraph, adj: Adjacency, start: NodeId, pushed: seq<WalkContext>, left: set<NodeId>,
      reported: seq<seq<NodeId>>)
    requires Waiting(pushed) <= Targets(g, start) && forall i :: 0 <= i < |pushed| ==> pushed[i].depth == 1
    requires reported == if pushed == [] then [[start]] else []
    ensures ReportsFit(g, adj, start, pushed, [start], {start}, reported)
  {
    if pushed != [] { WaitingMember(pushed, 0); }
    assert pushed == [] ==> [start] in reported;
  }

  function Targets(g: Digraph, u: NodeId): set<NodeId> { if u in g then g[u] else {} }

  method AppendEdge(adj: Adjacency, key: NodeId, target: NodeId) returns (r: Adjacency)
    ensures forall a, b :: Linked(r, a, b) <==> Linked(adj, a, b) || (a == key && b == target)
  {
    r := if key !in adj then adj[key := [target]] else adj[key := adj[key] + [target]];
  }

  /** Dictionaries that list each edge from both ends, with every end a node of the graph. */
  ghost predicate Consistent(from: Adjacency, to: Adjacency, ids: set<NodeId>) {
    && (forall a, b :: Linked(from, a, b) <==> Linked(to, b, a))
    && (forall a, b :: Linked(from, a, b) ==> a in ids && b in ids)
  }

  /** Walking backwards from t meets s exactly when walking forwards from s meets t. */
  lemma BackwardIsForward(from: Adjacency, to: Adjacency, ids: set<NodeId>, s: NodeId, t: NodeId)
    requires Consistent(from, to, ids)
    ensures Reaches(Walkable(from, ids), s, t) <==> Reaches(Walkable(to, ids), t, s)
  {
    var g, r := Walkable(from, ids), Walkable(to, ids);
    forall a, b ensures Step(g, a, b) <==> Step(r, b, a) {
      assert Step(g, a, b) <==> Linked(from, a, b) && b in ids;
      assert Step(r, b, a) <==> Linked(to, b, a) && a in ids;
    }
    ReversedReaches(g, r, s, t);
  }

  /** check_graph's layered search and the routes of a finished walk agree on every target but
      the start; they agree on the start too exactly when no edge leads back to it. */
  lemma SearchesAgree(g: Digraph, start: NodeId, reported: seq<seq<NodeId>>, targets: set<NodeId>)
    requires forall n :: n in Touched(reported) <==> Reaches(g, start, n)
    ensures forall t :: t in targets && t != start ==> (ReachesOnward(g, start, t) <==> t in Touched(reported))
    ensures ReachesOnward(g, start, start) <==> ReturnsToStart(g, start)
    ensures !ReturnsToStart(g, start) ==>
      (set t | t in targets && !ReachesOnward(g, start, t)) == targets - (Touched(reported) - {start})
  {
    forall t | t in targets ensures Reaches(g, start, t) <==> t == start || ReachesOnward(g, start, t) {
      ReachesSplit(g, start, t);
    }
    OnwardLast(g, start, start);
  }

  /** Two nodes with an edge each way: the walk from either ends with "The route was invalid!". */
  method WalkThereAndBack() returns (outcome: Outcome, reported: seq<seq<NodeId>>)
    ensures outcome == InvalidRoute
  {
    var graph := new RoutingGraph();
    var a, b := NodeId(0), NodeId(1);
    graph.AddNode(a);
    graph.AddNode(b);
    graph.AddEdge(a, b);
    graph.AddEdge(b, a);
    ghost var g := Walkable(graph.Edges(1), graph.nodes);
    assert Linked(graph.edgesFrom, a, b) && Linked(graph.edgesFrom, b, a);
    assert Step(g, a, b) && Step(g, b, a);
    ReachesSelf(g, a);
    ReachesStep(g, a, a, b);
    hide Walkable;
    outcome, reported := WalkAll(graph, a, 1);
  }
}
