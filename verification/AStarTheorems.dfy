/** What the search guarantees: least cost, completeness, the parent tree and termination
    (extension/sourcesdk/nav_mesh.cpp:194-467). */
module AStarTheorems {
  import opened OpenList
  import opened NavGraphs
  import opened AStar
  import opened Wrappers

  // ---------- Popping and closing ----------

  /** Taking the head off the open list makes it the area being expanded; only the start can be blocked. */
  lemma PopKeepsInv(p: Problem, s: State)
    requires ProblemOk(p) && Inv(p, s, {}) && s.open != []
    ensures var s' := s.(open := s.open[1..]);
            && Inv(p, s', {s.open[0]}) && s.open[0] in s.cost && s.open[0] !in s'.open
            && (p.blocked[s.open[0]] ==> s.open[0] == p.start)
  {
    var u, s' := s.open[0], s.(open := s.open[1..]);
    PopKeepsOrder(p, s, s');
    assert u != p.start ==> HangsOn(p, s, u, s.parent[u]);
    forall v | v in s'.parent
      ensures HangsOn(p, s', v, s'.parent[v])
    {
      assert HangsOn(p, s, v, s.parent[v]);
    }
    forall x | p.maxPathLength <= 0.0 && x in s'.marked && x !in s'.open && x != u
      ensures AllSatisfied(p, s', x)
    {
      AllSatisfiedStays(p, s, s', x);
    }
  }

  lemma PopKeepsOrder(p: Problem, s: State, s': State)
    requires OpenOk(p, s) && Distinct(s.open) && s.open != []
    requires s'.open == s.open[1..] && s'.cost == s.cost
    ensures OpenOk(p, s') && Distinct(s'.open)
    ensures forall v :: v in s.open <==> v == s.open[0] || v in s'.open
    ensures s.open[0] !in s'.open
  {
    assert s.open == [s.open[0]] + s'.open;
  }

  /** Closing the expanded area, all of whose connections have been relaxed. */
  lemma CloseKeepsInv(p: Problem, s: State, u: nat)
    requires ProblemOk(p) && Expanding(p, s, u)
    requires p.maxPathLength <= 0.0 ==> AllSatisfied(p, s, u)
    ensures Inv(p, s.(marked := s.marked + {u}), {})
  {
    var s' := s.(marked := s.marked + {u});
    forall v | v in s'.parent
      ensures HangsOn(p, s', v, s'.parent[v])
    {
      assert HangsOn(p, s, v, s.parent[v]);
    }
    forall x | p.maxPathLength <= 0.0 && x in s'.marked && x !in s'.open
      ensures AllSatisfied(p, s', x)
    {
      AllSatisfiedStays(p, s, s', x);
    }
  }

  // ---------- Least cost ----------

  /** Arriving from a cheaper predecessor is possible whenever arriving from a dearer one is, and no dearer. */
  ghost predicate Monotone(p: Problem) {
    forall e, g, g' ::
      IsEdge(p, e) && 0.0 <= g <= g' && Step(p, e, g').Some? ==>
        Step(p, e, g).Some? && Step(p, e, g).value <= Step(p, e, g').value
  }

  /** No step costs less than the drop in the heuristic. */
  ghost predicate Consistent(p: Problem)
    requires ProblemOk(p)
  {
    forall e, g :: IsEdge(p, e) && 0.0 <= g && Step(p, e, g).Some? && e.link.to < |p.h| ==>
      g + p.h[e.from] - p.h[e.link.to] <= Step(p, e, g).value
  }

  /** The search has not yet stepped off a target. */
  ghost predicate NoTargetClosed(p: Problem, s: State)
    requires ProblemOk(p)
  {
    forall v :: v in s.marked && v < |p.target| ==> !p.target[v]
  }

  /** Along any walk from the start there is an open area that is listed at no more than the walk costs up
      to there, unless the whole walk has been closed at no more than it costs. */
  lemma {:induction false} Frontier(p: Problem, s: State, w: seq<Edge>) returns (i: nat)
    requires ProblemOk(p) && Inv(p, s, {}) && Monotone(p) && p.maxPathLength <= 0.0
    requires IsWalk(p, w) && WalkCost(p, w).Some?
    ensures i <= |w| && WalkCost(p, w[..i]).Some?
    ensures Node(p, w, i) in s.cost && s.cost[Node(p, w, i)] <= WalkCost(p, w[..i]).value
    ensures Node(p, w, i) in s.open || (i == |w| && Node(p, w, i) in s.marked)
  {
    assert w[..|w|] == w;
    if w == [] {
      return 0;
    }
    var v, e := w[..|w| - 1], w[|w| - 1];
    PrefixWalk(p, w, |w| - 1);
    i := Frontier(p, s, v);
    assert v[..i] == w[..i] && Node(p, v, i) == Node(p, w, i);
    if Node(p, v, i) !in s.open {
      assert w[|w| - 1].from == Node(p, v, i);
      ClosedEdge(p, s, e, WalkCost(p, v).value);
      i := |w|;
    }
  }

  /** Over an edge from a closed area, at most as dear as g, one arrives at most as dear as from g. */
  lemma ClosedEdge(p: Problem, s: State, e: Edge, g: real)
    requires ProblemOk(p) && Inv(p, s, {}) && Monotone(p) && p.maxPathLength <= 0.0
    requires Usable(p, e) && e.from in s.marked && e.from !in s.open && s.cost[e.from] <= g && Step(p, e, g).Some?
    ensures e.link.to in s.cost && s.cost[e.link.to] <= Step(p, e, g).value
  {
    CostAtLeastStart(p, s, e.from);
    assert AllSatisfied(p, s, e.from) && Satisfied(p, s, e);
  }

  lemma PrefixWalk(p: Problem, w: seq<Edge>, i: nat)
    requires ProblemOk(p) && IsWalk(p, w) && i <= |w|
    ensures IsWalk(p, w[..i]) && End(p, w[..i]) == Node(p, w, i)
    ensures Simple(p, w) ==> Simple(p, w[..i])
  {
    assert forall j :: 0 <= j <= i ==> Node(p, w[..i], j) == Node(p, w, j);
    assert forall j :: 0 <= j < i ==> w[..i][j] == w[j];
  }

  /** The heuristic never drops faster along a walk than the cost rises. */
  lemma {:induction false} ConsistentAlong(p: Problem, w: seq<Edge>, i: nat)
    requires ProblemOk(p) && Consistent(p) && IsWalk(p, w) && i <= |w| && WalkCost(p, w).Some?
    ensures WalkCost(p, w[..i]).Some?
    ensures Node(p, w, i) < |p.h| && End(p, w) < |p.h|
    ensures WalkCost(p, w[..i]).value + p.h[Node(p, w, i)] <= WalkCost(p, w).value + p.h[End(p, w)]
  {
    assert w[..|w|] == w;
    if 0 < |w| {
      assert Usable(p, w[|w| - 1]) && w[|w| - 1].from == Node(p, w, |w| - 1);
    }
    if i < |w| {
      var v, e := w[..|w| - 1], w[|w| - 1];
      PrefixWalk(p, w, |w| - 1);
      assert v[..i] == w[..i] && Node(p, v, i) == Node(p, w, i);
      WalkCostGrows(p, w, |w| - 1);
      ConsistentAlong(p, v, i);
    }
  }

  /** When the head of the open list is a target, no walk to any target has a smaller sum of cost and
      remaining heuristic; so no walk to the same target costs less. */
  lemma PoppedTargetIsOptimal(p: Problem, s: State, w: seq<Edge>)
    requires ProblemOk(p) && Inv(p, s, {}) && NoTargetClosed(p, s)
    requires Monotone(p) && Consistent(p) && p.maxPathLength <= 0.0
    requires s.open != [] && p.target[s.open[0]]
    requires IsWalk(p, w) && WalkCost(p, w).Some? && End(p, w) < |p.target| && p.target[End(p, w)]
    ensures s.cost[s.open[0]] + p.h[s.open[0]] <= WalkCost(p, w).value + p.h[End(p, w)]
    ensures End(p, w) == s.open[0] ==> s.cost[s.open[0]] <= WalkCost(p, w).value
  {
    var u := s.open[0];
    if u == p.start {
      ConsistentAlong(p, w, 0);
      assert w[..0] == [];
    } else {
      var i := Frontier(p, s, w);
      ConsistentAlong(p, w, i);
      var y := Node(p, w, i);
      assert y in s.open;
      var j :| 0 <= j < |s.open| && s.open[j] == y;
      assert Total(p, s.cost, u) <= Total(p, s.cost, y);
      CostAtLeastStart(p, s, y);
    }
  }

  /** No walk to v costs less than c. */
  ghost predicate LeastCost(p: Problem, v: nat, c: real)
    requires ProblemOk(p)
  {
    forall w :: IsWalk(p, w) && WalkCost(p, w).Some? && End(p, w) == v ==> c <= WalkCost(p, w).value
  }

  // ---------- Completeness ----------

  /** Whether an edge is a dead end does not depend on what the walk cost so far. */
  ghost predicate FixedDeadEnds(p: Problem) {
    forall e, g, g' :: IsEdge(p, e) && 0.0 <= g && 0.0 <= g' ==> (Step(p, e, g).Some? <==> Step(p, e, g').Some?)
  }

  /** Once the open list is empty, everything that any walk can reach has been reached and closed. */
  lemma {:induction false} ExhaustedReachesAll(p: Problem, s: State, w: seq<Edge>)
    requires ProblemOk(p) && Inv(p, s, {}) && s.open == [] && p.maxPathLength <= 0.0
    requires Monotone(p) || FixedDeadEnds(p)
    requires IsWalk(p, w) && WalkCost(p, w).Some?
    ensures End(p, w) in s.cost && End(p, w) in s.marked
  {
    if Monotone(p) {
      var _ := Frontier(p, s, w);
    } else if w != [] {
      var e := w[|w| - 1];
      PrefixWalk(p, w, |w| - 1);
      WalkCostGrows(p, w, |w| - 1);
      ExhaustedReachesAll(p, s, w[..|w| - 1]);
      assert Usable(p, e) && e.from == Node(p, w, |w| - 1);
      assert AllSatisfied(p, s, e.from) && Satisfied(p, s, e);
      CostAtLeastStart(p, s, e.from);
    }
  }

  // ---------- The parent tree ----------

  ghost function CheaperThan(s: State, v: nat): set<nat>
    requires v in s.cost
  {
    set x | x in s.cost && s.cost[x] < s.cost[v]
  }

  /** Follow the parents from v back to the start. */
  ghost function ParentWalk(p: Problem, s: State, v: nat): seq<Edge>
    requires ProblemOk(p) && Known(p, s) && TreeOk(p, s) && v in s.cost
    decreases CheaperThan(s, v)
  {
    if v == p.start then []
    else
      assert HangsOn(p, s, v, s.parent[v]);
      assert s.parent[v].from in CheaperThan(s, v);
      ParentWalk(p, s, s.parent[v].from) + [s.parent[v]]
  }

  /** The parents lead back to the start along a simple walk over usable edges, through ever cheaper areas. */
  lemma {:induction false} ParentWalkIsSimple(p: Problem, s: State, v: nat)
    requires ProblemOk(p) && Known(p, s) && TreeOk(p, s) && v in s.cost
    ensures var w := ParentWalk(p, s, v);
            && IsWalk(p, w) && Simple(p, w) && End(p, w) == v
            && (forall i :: 0 <= i <= |w| ==> Node(p, w, i) in s.cost && s.cost[Node(p, w, i)] <= s.cost[v])
    decreases CheaperThan(s, v)
  {
    if v != p.start {
      var e := s.parent[v];
      assert HangsOn(p, s, v, e);
      assert e.from in CheaperThan(s, v);
      ParentWalkIsSimple(p, s, e.from);
      var w := ParentWalk(p, s, e.from);
      AppendWalk(p, w, e);
      assert forall i :: 0 <= i <= |w| ==> Node(p, w + [e], i) == Node(p, w, i);
    }
  }

  /** No area is listed at less than arriving over its parent costs now. */
  ghost predicate TreeCovers(p: Problem, s: State)
    requires ProblemOk(p) && Known(p, s)
  {
    forall v {:trigger Covers(p, s, v, s.parent[v])} :: v in s.parent ==> Covers(p, s, v, s.parent[v])
  }

  ghost predicate Covers(p: Problem, s: State, v: nat, e: Edge)
    requires v in s.cost
  {
    e.from in s.cost && Step(p, e, s.cost[e.from]).Some? && Step(p, e, s.cost[e.from]).value <= s.cost[v]
  }

  lemma RelaxKeepsTreeCovers(p: Problem, s: State, e: Edge, s': State)
    requires ProblemOk(p) && Expanding(p, s, e.from) && IsEdge(p, e) && Relaxes(p, s, e, s')
    requires Monotone(p) && TreeCovers(p, s) && Known(p, s')
    ensures TreeCovers(p, s')
  {
    match Accepted(p, s, e)
    case Some(c) =>
      AcceptedIsNews(p, s, e);
      ImproveKeepsTreeCovers(p, s, e, c, s');
    case None =>
      assert forall v :: v in s'.parent ==> Covers(p, s, v, s.parent[v]);
  }

  lemma ImproveKeepsTreeCovers(p: Problem, s: State, e: Edge, c: real, s': State)
    requires ProblemOk(p) && Known(p, s) && TreeOk(p, s) && Known(p, s') && IsEdge(p, e) && e.from in s.cost
    requires 0.0 <= s.cost[e.from] < c && Step(p, e, s.cost[e.from]) == Some(c) && e.link.to != e.from
    requires e.link.to in s.cost ==> c < s.cost[e.link.to]
    requires Improves(p, s, e, c, s') && Monotone(p) && TreeCovers(p, s)
    ensures TreeCovers(p, s')
  {
    forall v | v in s'.parent
      ensures Covers(p, s', v, s'.parent[v])
    {
      if v != e.link.to {
        assert Covers(p, s, v, s.parent[v]) && HangsOn(p, s, v, s.parent[v]);
      }
    }
  }

  /** With monotone steps, walking the parents costs no more than the cost listed for the area. */
  lemma {:induction false} ParentWalkCost(p: Problem, s: State, v: nat)
    requires ProblemOk(p) && Known(p, s) && TreeOk(p, s) && v in s.cost
    requires Monotone(p) && TreeCovers(p, s)
    ensures WalkCost(p, ParentWalk(p, s, v)).Some?
    ensures p.startCost <= WalkCost(p, ParentWalk(p, s, v)).value <= s.cost[v]
    decreases CheaperThan(s, v)
  {
    if v != p.start {
      var e := s.parent[v];
      assert HangsOn(p, s, v, e) && Covers(p, s, v, e);
      assert e.from in CheaperThan(s, v);
      ParentWalkCost(p, s, e.from);
      var w := ParentWalk(p, s, e.from);
      assert (w + [e])[..|w|] == w;
      WalkCostGrows(p, w + [e], |w|);
    }
  }

  /** The path read off the parents of a popped target costs exactly what is listed for it, which is the
      least that any walk to it costs. */
  lemma FoundPathIsOptimal(p: Problem, s: State)
    requires ProblemOk(p) && Inv(p, s, {}) && NoTargetClosed(p, s) && TreeCovers(p, s)
    requires Monotone(p) && Consistent(p) && p.maxPathLength <= 0.0
    requires s.open != [] && p.target[s.open[0]]
    ensures WalkCost(p, ParentWalk(p, s, s.open[0])) == Some(s.cost[s.open[0]])
  {
    ParentWalkIsSimple(p, s, s.open[0]);
    ParentWalkCost(p, s, s.open[0]);
    CostIsExact(p, s, ParentWalk(p, s, s.open[0]));
  }

  lemma CostIsExact(p: Problem, s: State, w: seq<Edge>)
    requires ProblemOk(p) && Inv(p, s, {}) && NoTargetClosed(p, s)
    requires Monotone(p) && Consistent(p) && p.maxPathLength <= 0.0
    requires s.open != [] && p.target[s.open[0]]
    requires IsWalk(p, w) && End(p, w) == s.open[0]
    requires WalkCost(p, w).Some? && WalkCost(p, w).value <= s.cost[s.open[0]]
    ensures WalkCost(p, w) == Some(s.cost[s.open[0]])
  {
    PoppedTargetIsOptimal(p, s, w);
  }

  // ---------- Termination ----------

  ghost function Edges(p: Problem): set<Edge> {
    set u, i | 0 <= u < |p.links| && 0 <= i < |p.links[u]| :: Edge(u, p.links[u][i])
  }

  ghost function EdgeSequences(p: Problem, n: nat): set<seq<Edge>> {
    if n == 0 then {[]}
    else EdgeSequences(p, n - 1) + set w, e | w in EdgeSequences(p, n - 1) && e in Edges(p) :: w + [e]
  }

  /** A simple walk that would still be news: it reaches a new area, or a reached one more cheaply. */
  ghost predicate Promising(p: Problem, s: State, w: seq<Edge>)
    requires ProblemOk(p)
  {
    && IsWalk(p, w) && Simple(p, w) && WalkCost(p, w).Some?
    && (End(p, w) in s.cost ==> WalkCost(p, w).value < s.cost[End(p, w)])
  }

  /** The simple walks that would still be news: a finite set, which every accepted relaxation shrinks. */
  ghost function Remaining(p: Problem, s: State): set<seq<Edge>>
    requires ProblemOk(p)
  {
    set w | w in EdgeSequences(p, |p.links|) && Promising(p, s, w)
  }

  lemma {:induction false} WalkIsEdgeSequence(p: Problem, w: seq<Edge>, n: nat)
    requires ProblemOk(p) && IsWalk(p, w) && |w| <= n
    ensures w in EdgeSequences(p, n)
  {
    hide IsWalk, Edges;
    if |w| < n {
      WalkIsEdgeSequence(p, w, n - 1);
    } else if w != [] {
      LastEdge(p, w);
      WalkIsEdgeSequence(p, w[..|w| - 1], n - 1);
    }
  }

  lemma LastEdge(p: Problem, w: seq<Edge>)
    requires ProblemOk(p) && IsWalk(p, w) && w != []
    ensures IsWalk(p, w[..|w| - 1]) && w[|w| - 1] in Edges(p) && w == w[..|w| - 1] + [w[|w| - 1]]
  {
    PrefixWalk(p, w, |w| - 1);
    assert Usable(p, w[|w| - 1]);
  }

  /** A simple walk has fewer edges than the mesh has areas. */
  lemma SimpleWalkIsShort(p: Problem, w: seq<Edge>)
    requires ProblemOk(p) && IsWalk(p, w) && Simple(p, w)
    ensures |w| < |p.links|
  {
    var nodes := seq(|w| + 1, i requires 0 <= i <= |w| => Node(p, w, i));
    forall i | 0 <= i < |nodes|
      ensures nodes[i] < |p.links|
    {
      assert 0 < i ==> Usable(p, w[i - 1]);
    }
    Pigeonhole(nodes, |p.links|);
  }

  /** Termination: an accepted relaxation strictly shrinks the set of walks that would be news; a rejected
      one leaves the costs, the open list and that set alone. */
  lemma RelaxShrinksRemaining(p: Problem, s: State, e: Edge, s': State)
    requires ProblemOk(p) && Expanding(p, s, e.from) && IsEdge(p, e) && Relaxes(p, s, e, s')
    ensures Accepted(p, s, e).Some? ==> Remaining(p, s') < Remaining(p, s)
    ensures Accepted(p, s, e).None? ==> Remaining(p, s') == Remaining(p, s) && s'.open == s.open
    ensures s'.marked == s.marked
  {
    hide IsWalk, Simple, WalkCost, Node, NodeReached, Remaining, OpenOk, Settled;
    if Accepted(p, s, e).Some? {
      AcceptedIsNews(p, s, e);
      var c, w := Accepted(p, s, e).value, s.walk[e.from] + [e];
      assert WalkOk(p, s.cost, e.from, s.walk[e.from]);
      WalkOkExtends(p, s.cost, s.walk[e.from], e, c);
      SimpleWalkIsShort(p, w);
      WalkIsEdgeSequence(p, w, |p.links|);
      ShrinksBy(p, s, s', w);
    } else {
      SameCostsRemain(p, s, s');
    }
  }

  lemma SameCostsRemain(p: Problem, s: State, s': State)
    requires ProblemOk(p) && s'.cost == s.cost
    ensures Remaining(p, s') == Remaining(p, s)
  {
    assert forall w :: Promising(p, s', w) <==> Promising(p, s, w);
  }

  lemma ShrinksBy(p: Problem, s: State, s': State, w: seq<Edge>)
    requires ProblemOk(p) && Cheaper(s.cost, s'.cost)
    requires w in EdgeSequences(p, |p.links|) && Promising(p, s, w)
    requires End(p, w) in s'.cost && WalkCost(p, w) == Some(s'.cost[End(p, w)])
    ensures Remaining(p, s') < Remaining(p, s)
  {
    assert forall x :: Promising(p, s', x) ==> Promising(p, s, x);
    assert w in Remaining(p, s) && w !in Remaining(p, s');
  }
}
